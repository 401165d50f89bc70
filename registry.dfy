/** The registry section synchronizer: finding the blocks of sections generated from a
    profile registry in a configuration document, removing them, and appending a freshly
    generated block whose colliding profile names are prefixed with the registry's
    namespace.

    A block starts with a section named `granted_registry_start <id>` and ends with the
    nearest later section named `granted_registry_end <id>` with the identical identifier;
    identifiers are compared exactly. The document is scanned left to right and blocks do
    not nest: every section between the two markers belongs to the block. A marker that
    opens or closes no block is an orphan and belongs to no query result. */
module Registry {

  import opened Wrappers
  import opened Ini
  import opened Strings

  const StartPrefix := "granted_registry_start "
  const EndPrefix := "granted_registry_end "

  function StartMarker(id: string): string { StartPrefix + id }

  function EndMarker(id: string): string { EndPrefix + id }

  predicate IsStartMarker(name: string) { HasPrefix(name, StartPrefix) }

  predicate IsEndMarker(name: string) { HasPrefix(name, EndPrefix) }

  predicate IsMarker(name: string) { IsStartMarker(name) || IsEndMarker(name) }

  /** The name of the end marker that closes the block a start marker opens. */
  function Closer(name: string): string
    requires IsStartMarker(name)
  {
    EndMarker(name[|StartPrefix|..])
  }

  /** Marker names carry their identifier verbatim: a start marker is never an end marker,
      a start marker is closed by the end marker of its own identifier, and two markers of
      one kind are equal exactly when their identifiers are. */
  lemma MarkerNames(id: string, other: string)
    ensures IsStartMarker(StartMarker(id)) && Closer(StartMarker(id)) == EndMarker(id)
    ensures IsEndMarker(EndMarker(id)) && !IsStartMarker(EndMarker(id)) && !IsEndMarker(StartMarker(id))
    ensures StartMarker(id) == StartMarker(other) <==> id == other
    ensures EndMarker(id) == EndMarker(other) <==> id == other
  {
    assert StartMarker(id)[..|StartPrefix|] == StartPrefix;
    assert StartMarker(id)[|StartPrefix|..] == id;
    assert EndMarker(id)[..|EndPrefix|] == EndPrefix;
    assert StartMarker(id)[17] != EndPrefix[17];
    assert EndMarker(id)[17] != StartPrefix[17];
    if StartMarker(id) == StartMarker(other) {
      assert id == StartMarker(id)[|StartPrefix|..] == StartMarker(other)[|StartPrefix|..] == other;
    }
    if EndMarker(id) == EndMarker(other) {
      assert id == EndMarker(id)[|EndPrefix|..] == EndMarker(other)[|EndPrefix|..] == other;
    }
  }


  /** The closer of a start marker is an end marker, and it is the end marker of `url`
      only for the start marker of `url`. */
  lemma CloserIs(name: string, url: string)
    requires IsStartMarker(name)
    ensures IsEndMarker(Closer(name))
    ensures Closer(name) == EndMarker(url) ==> name == StartMarker(url)
  {
    var id := name[|StartPrefix|..];
    assert name == StartPrefix + id;
    MarkerNames(id, url);
  }

  /** Position of the nearest section at or after `from` called `name`. */
  function NextNamed(doc: seq<Section>, name: string, from: nat): (r: Option<nat>)
    ensures r.Some? ==> from <= r.value < |doc| && doc[r.value].name == name
    decreases |doc| - from
  {
    if from >= |doc| then None
    else if doc[from].name == name then Some(from)
    else NextNamed(doc, name, from + 1)
  }

  /** `NextNamed` finds the nearest match, and misses only when there is none. */
  lemma {:induction false} NextNamedNearest(doc: seq<Section>, name: string, from: nat)
    ensures NextNamed(doc, name, from).Some? ==>
      forall k :: from <= k < NextNamed(doc, name, from).value ==> doc[k].name != name
    ensures NextNamed(doc, name, from).None? ==>
      forall k :: from <= k < |doc| ==> doc[k].name != name
    decreases |doc| - from
  {
    if from < |doc| && doc[from].name != name {
      NextNamedNearest(doc, name, from + 1);
    }
  }

  /** Position of the end marker that closes the block opening at `doc[i]`, when `doc[i]`
      is a start marker and such an end marker follows. */
  function BlockEnd(doc: seq<Section>, i: nat): (r: Option<nat>)
    requires i < |doc|
    ensures r.Some? ==> i < r.value < |doc|
  {
    if IsStartMarker(doc[i].name) then NextNamed(doc, Closer(doc[i].name), i + 1) else None
  }

  /** A block runs from its start marker to the nearest end marker of the same identifier. */
  lemma BlockEndIsNearestCloser(doc: seq<Section>, i: nat)
    requires i < |doc|
    ensures BlockEnd(doc, i).Some? <==>
      IsStartMarker(doc[i].name) && exists k :: i < k < |doc| && doc[k].name == Closer(doc[i].name)
    ensures BlockEnd(doc, i).Some? ==>
      var j := BlockEnd(doc, i).value;
      doc[j].name == Closer(doc[i].name) &&
      forall k :: i < k < j ==> doc[k].name != Closer(doc[i].name)
  {
    if IsStartMarker(doc[i].name) {
      NextNamedNearest(doc, Closer(doc[i].name), i + 1);
    }
  }

  /** The generated sections from position `i` on. */
  function GeneratedFrom(doc: seq<Section>, i: nat): seq<Section>
    decreases |doc| - i
  {
    if i >= |doc| then []
    else match BlockEnd(doc, i)
      case Some(j) => doc[i..j + 1] + GeneratedFrom(doc, j + 1)
      case None => GeneratedFrom(doc, i + 1)
  }

  /** The sections outside every block from position `i` on. */
  function KeptFrom(doc: seq<Section>, i: nat): seq<Section>
    decreases |doc| - i
  {
    if i >= |doc| then []
    else match BlockEnd(doc, i)
      case Some(j) => KeptFrom(doc, j + 1)
      case None => [doc[i]] + KeptFrom(doc, i + 1)
  }

  /** A section a user owns: neither a marker nor the DEFAULT section. */
  predicate IsUserSection(s: Section) {
    !IsMarker(s.name) && s.name != DefaultSection
  }

  /** The non-granted profiles from position `i` on. */
  function NonGrantedFrom(doc: seq<Section>, i: nat): seq<Section>
    decreases |doc| - i
  {
    if i >= |doc| then []
    else match BlockEnd(doc, i)
      case Some(j) => NonGrantedFrom(doc, j + 1)
      case None => (if IsUserSection(doc[i]) then [doc[i]] else []) + NonGrantedFrom(doc, i + 1)
  }

  /** `getGrantedGeneratedSections`: every section of every block, markers included, in
      document order. */
  function GrantedGeneratedSections(doc: seq<Section>): (r: seq<Section>)
    ensures multiset(r) <= multiset(doc)
  {
    PartitionFrom(doc, 0);
    assert doc[0..] == doc;
    GeneratedFrom(doc, 0)
  }

  /** The sections outside every block, orphan markers and DEFAULT included, in document
      order: what `removeAutogeneratedProfiles` leaves. */
  function WithoutGenerated(doc: seq<Section>): seq<Section> {
    KeptFrom(doc, 0)
  }

  /** `getNonGrantedProfiles`: the sections outside every block that are neither markers
      nor DEFAULT, in document order. */
  function NonGrantedProfiles(doc: seq<Section>): (r: seq<Section>)
    ensures forall s :: s in r ==> s in doc && IsUserSection(s)
  {
    NonGrantedFromKept(doc, 0);
    UserSectionsMembers(KeptFrom(doc, 0));
    KeptWithin(doc);
    NonGrantedFrom(doc, 0)
  }

  /** Every section the removal keeps comes from the document. */
  lemma KeptWithin(doc: seq<Section>)
    ensures forall s :: s in KeptFrom(doc, 0) ==> s in doc
  {
    PartitionFrom(doc, 0);
    assert doc[0..] == doc;
    forall s | s in KeptFrom(doc, 0) ensures s in doc {
      assert multiset(doc)[s] >= multiset(KeptFrom(doc, 0))[s] > 0;
    }
  }

  /** The user sections of `doc`, in order. */
  function UserSections(doc: seq<Section>): seq<Section> {
    if doc == [] then []
    else (if IsUserSection(doc[0]) then [doc[0]] else []) + UserSections(doc[1..])
  }

  /** The user sections are exactly the sections of `doc` that a user owns. */
  lemma {:induction false} UserSectionsMembers(doc: seq<Section>)
    ensures forall s :: s in UserSections(doc) <==> s in doc && IsUserSection(s)
  {
    if doc != [] {
      UserSectionsMembers(doc[1..]);
      assert forall s :: s in doc <==> s == doc[0] || s in doc[1..];
    }
  }

  lemma UserSectionsCons(s: Section, rest: seq<Section>)
    ensures UserSections([s] + rest) == (if IsUserSection(s) then [s] else []) + UserSections(rest)
  {
    assert ([s] + rest)[1..] == rest;
  }

  /** No start marker is followed by the end marker that would close it. */
  predicate NoBlocks(doc: seq<Section>) {
    forall i, j :: 0 <= i < j < |doc| && IsStartMarker(doc[i].name) ==> doc[j].name != Closer(doc[i].name)
  }

  /** Two parts of `x` stay the two parts of `a + x` once `a` is put in front of one of
      them. */
  lemma MultisetPrefix(g: seq<Section>, k: seq<Section>, d: seq<Section>,
                       a: seq<Section>, g': seq<Section>, k': seq<Section>, x: seq<Section>)
    requires multiset(g') + multiset(k') == multiset(x) && d == a + x
    requires (g == a + g' && k == k') || (g == g' && k == a + k')
    ensures multiset(g) + multiset(k) == multiset(d)
  {
  }

  lemma SliceSplit(doc: seq<Section>, i: nat, j: nat)
    requires i <= j <= |doc|
    ensures doc[i..] == doc[i..j] + doc[j..]
  {
  }

  /** One step of the scan over a block. */
  lemma ScanBlock(doc: seq<Section>, i: nat, j: nat)
    requires i < |doc| && BlockEnd(doc, i) == Some(j)
    ensures GeneratedFrom(doc, i) == doc[i..j + 1] + GeneratedFrom(doc, j + 1)
    ensures KeptFrom(doc, i) == KeptFrom(doc, j + 1)
  {
  }

  /** One step of the scan over a section outside every block. */
  lemma ScanOutside(doc: seq<Section>, i: nat)
    requires i < |doc| && BlockEnd(doc, i).None?
    ensures GeneratedFrom(doc, i) == GeneratedFrom(doc, i + 1)
    ensures KeptFrom(doc, i) == [doc[i]] + KeptFrom(doc, i + 1)
  {
  }

  lemma PartitionBlock(doc: seq<Section>, i: nat, j: nat)
    requires i < |doc| && BlockEnd(doc, i) == Some(j)
    requires multiset(GeneratedFrom(doc, j + 1)) + multiset(KeptFrom(doc, j + 1)) == multiset(doc[j + 1..])
    ensures multiset(GeneratedFrom(doc, i)) + multiset(KeptFrom(doc, i)) == multiset(doc[i..])
  {
    SliceSplit(doc, i, j + 1);
    ScanBlock(doc, i, j);
    MultisetPrefix(GeneratedFrom(doc, i), KeptFrom(doc, i), doc[i..],
                   doc[i..j + 1], GeneratedFrom(doc, j + 1), KeptFrom(doc, j + 1), doc[j + 1..]);
  }

  lemma PartitionOutside(doc: seq<Section>, i: nat)
    requires i < |doc| && BlockEnd(doc, i).None?
    requires multiset(GeneratedFrom(doc, i + 1)) + multiset(KeptFrom(doc, i + 1)) == multiset(doc[i + 1..])
    ensures multiset(GeneratedFrom(doc, i)) + multiset(KeptFrom(doc, i)) == multiset(doc[i..])
  {
    ScanOutside(doc, i);
    SliceSplit(doc, i, i + 1);
    MultisetPrefix(GeneratedFrom(doc, i), KeptFrom(doc, i), doc[i..],
                   doc[i..i + 1], GeneratedFrom(doc, i + 1), KeptFrom(doc, i + 1), doc[i + 1..]);
  }

  lemma {:induction false} PartitionFrom(doc: seq<Section>, i: nat)
    requires i <= |doc|
    ensures multiset(GeneratedFrom(doc, i)) + multiset(KeptFrom(doc, i)) == multiset(doc[i..])
    decreases |doc| - i
  {
    if i < |doc| {
      match BlockEnd(doc, i)
      case Some(j) =>
        PartitionFrom(doc, j + 1);
        PartitionBlock(doc, i, j);
      case None =>
        PartitionFrom(doc, i + 1);
        PartitionOutside(doc, i);
    }
  }

  /** Every section is either generated or left by the removal, and none is both. */
  lemma GeneratedPartition(doc: seq<Section>)
    ensures multiset(GrantedGeneratedSections(doc)) + multiset(WithoutGenerated(doc)) == multiset(doc)
  {
    PartitionFrom(doc, 0);
    assert doc[0..] == doc;
  }

  lemma {:induction false} NonGrantedFromKept(doc: seq<Section>, i: nat)
    ensures NonGrantedFrom(doc, i) == UserSections(KeptFrom(doc, i))
    decreases |doc| - i
  {
    if i < |doc| {
      match BlockEnd(doc, i)
      case Some(j) =>
        NonGrantedFromKept(doc, j + 1);
      case None =>
        NonGrantedFromKept(doc, i + 1);
        UserSectionsCons(doc[i], KeptFrom(doc, i + 1));
    }
  }

  /** The non-granted profiles are the user sections among those the removal leaves, so
      the generated sections, the non-granted profiles, the orphan markers and DEFAULT
      together account for every section exactly once. */
  lemma NonGrantedAreUserSections(doc: seq<Section>)
    ensures NonGrantedProfiles(doc) == UserSections(WithoutGenerated(doc))
  {
    NonGrantedFromKept(doc, 0);
  }

  lemma {:induction false} NoBlocksFrom(doc: seq<Section>, i: nat)
    requires NoBlocks(doc) && i <= |doc|
    ensures GeneratedFrom(doc, i) == [] && KeptFrom(doc, i) == doc[i..]
    decreases |doc| - i
  {
    if i < |doc| {
      if IsStartMarker(doc[i].name) {
        NextNamedNearest(doc, Closer(doc[i].name), i + 1);
      }
      NoBlocksFrom(doc, i + 1);
      assert doc[i..] == [doc[i]] + doc[i + 1..];
    }
  }

  /** A document without any block has no generated sections and loses nothing on removal. */
  lemma NoBlocksNothingGenerated(doc: seq<Section>)
    requires NoBlocks(doc)
    ensures GrantedGeneratedSections(doc) == []
    ensures WithoutGenerated(doc) == doc
  {
    NoBlocksFrom(doc, 0);
  }

  /** Without markers there are no generated sections and every section except DEFAULT is
      a non-granted profile, in document order. */
  lemma WithoutMarkers(doc: seq<Section>)
    requires forall i :: 0 <= i < |doc| ==> !IsMarker(doc[i].name)
    ensures GrantedGeneratedSections(doc) == []
    ensures NonGrantedProfiles(doc) == UserSections(doc)
    ensures forall s :: s in NonGrantedProfiles(doc) <==> s in doc && s.name != DefaultSection
  {
    NoBlocksNothingGenerated(doc);
    NonGrantedAreUserSections(doc);
    UserSectionsMembers(doc);
  }

  /** A name absent from position `i` on is absent from what the removal keeps there. */
  lemma {:induction false} KeptAvoids(doc: seq<Section>, i: nat, name: string)
    requires forall k :: i <= k < |doc| ==> doc[k].name != name
    ensures forall k :: 0 <= k < |KeptFrom(doc, i)| ==> KeptFrom(doc, i)[k].name != name
    decreases |doc| - i
  {
    if i < |doc| {
      match BlockEnd(doc, i)
      case Some(j) => KeptAvoids(doc, j + 1, name);
      case None => KeptAvoids(doc, i + 1, name);
    }
  }

  lemma {:induction false} KeptHasNoBlocks(doc: seq<Section>, i: nat)
    ensures NoBlocks(KeptFrom(doc, i))
    decreases |doc| - i
  {
    if i < |doc| {
      match BlockEnd(doc, i)
      case Some(j) =>
        KeptHasNoBlocks(doc, j + 1);
      case None =>
        var rest := KeptFrom(doc, i + 1);
        KeptHasNoBlocks(doc, i + 1);
        if IsStartMarker(doc[i].name) {
          NextNamedNearest(doc, Closer(doc[i].name), i + 1);
          KeptAvoids(doc, i + 1, Closer(doc[i].name));
        }
        var r := [doc[i]] + rest;
        forall a, b | 0 <= a < b < |r| && IsStartMarker(r[a].name)
          ensures r[b].name != Closer(r[a].name)
        {
          assert r[b] == rest[b - 1];
          if a > 0 {
            assert r[a] == rest[a - 1];
          }
        }
    }
  }

  /** `removeAutogeneratedProfiles` followed by a new scan finds no generated section, a
      second removal changes nothing, and the user's sections are all still there. */
  lemma RemovalIsComplete(doc: seq<Section>)
    ensures GrantedGeneratedSections(WithoutGenerated(doc)) == []
    ensures WithoutGenerated(WithoutGenerated(doc)) == WithoutGenerated(doc)
    ensures NonGrantedProfiles(WithoutGenerated(doc)) == NonGrantedProfiles(doc)
  {
    KeptHasNoBlocks(doc, 0);
    NoBlocksNothingGenerated(WithoutGenerated(doc));
    NonGrantedAreUserSections(doc);
    NonGrantedAreUserSections(WithoutGenerated(doc));
  }

  lemma {:induction false} KeptUnique(doc: seq<Section>, i: nat)
    requires UniqueNames(doc)
    ensures UniqueNames(KeptFrom(doc, i))
    decreases |doc| - i
  {
    if i < |doc| {
      match BlockEnd(doc, i)
      case Some(j) =>
        KeptUnique(doc, j + 1);
      case None =>
        var rest := KeptFrom(doc, i + 1);
        KeptUnique(doc, i + 1);
        KeptAvoids(doc, i + 1, doc[i].name);
        var r := [doc[i]] + rest;
        forall a, b | 0 <= a < b < |r| ensures r[a].name != r[b].name {
          assert r[b] == rest[b - 1];
          if a > 0 {
            assert r[a] == rest[a - 1];
          }
        }
    }
  }

  /** The removal keeps section names unique. */
  lemma WithoutGeneratedUnique(doc: seq<Section>)
    requires UniqueNames(doc)
    ensures UniqueNames(WithoutGenerated(doc))
  {
    KeptUnique(doc, 0);
  }

  /** `removeAutogeneratedProfiles` on the loaded file: drops every block, scanning the
      sections once by position. */
  method RemoveAutogeneratedProfiles(f: File)
    modifies f
    ensures f.sections == WithoutGenerated(old(f.sections))
    ensures old(f.Valid()) ==> f.Valid()
  {
    var doc := f.sections;
    var kept: seq<Section> := [];
    var i := 0;
    while i < |doc|
      invariant 0 <= i <= |doc|
      invariant KeptFrom(doc, 0) == kept + KeptFrom(doc, i)
      decreases |doc| - i
    {
      match BlockEnd(doc, i)
      case Some(j) =>
        i := j + 1;
      case None =>
        kept := kept + [doc[i]];
        i := i + 1;
    }
    f.sections := kept;
    if UniqueNames(doc) {
      WithoutGeneratedUnique(doc);
    }
  }

  /** The position the scan looks at after position `i`: just past the block `doc[i]`
      opens, or the next section. */
  function ScanNext(doc: seq<Section>, i: nat): (n: nat)
    requires i < |doc|
    ensures i < n <= |doc|
  {
    match BlockEnd(doc, i)
    case Some(j) => j + 1
    case None => i + 1
  }

  /** Whether the scan, started at `from`, looks at position `k`: the positions inside a
      block are stepped over. */
  predicate Visited(doc: seq<Section>, from: nat, k: nat)
    decreases |doc| - from
  {
    from == k || (from < k && from < |doc| && Visited(doc, ScanNext(doc, from), k))
  }

  /** Whether the scan finds a block of `url` opening at `k`. */
  predicate Opens(doc: seq<Section>, url: string, k: nat) {
    k < |doc| && doc[k].name == StartMarker(url) && BlockEnd(doc, k).Some?
  }

  /** Bounds of the first block of registry `url` that the scan from position `i` opens. */
  function BlockFrom(doc: seq<Section>, url: string, i: nat): (r: Option<(nat, nat)>)
    ensures r.Some? ==> i <= r.value.0 < r.value.1 < |doc|
    ensures r.Some? ==> Opens(doc, url, r.value.0) && BlockEnd(doc, r.value.0) == Some(r.value.1)
    decreases |doc| - i
  {
    if i >= |doc| then None
    else if Opens(doc, url, i) then Some((i, BlockEnd(doc, i).value))
    else BlockFrom(doc, url, ScanNext(doc, i))
  }

  /** Bounds of the block of registry `url`: the first block the scan opens with the start
      marker of exactly `url`, up to the nearest end marker of `url`. */
  function RegistryBlock(doc: seq<Section>, url: string): (r: Option<(nat, nat)>) {
    BlockFrom(doc, url, 0)
  }

  /** `BlockFrom` stops at the first position the scan visits where a block of `url`
      opens, and finds nothing when there is none. */
  lemma {:induction false} BlockFromFirst(doc: seq<Section>, url: string, i: nat)
    ensures BlockFrom(doc, url, i).Some? ==>
      && Visited(doc, i, BlockFrom(doc, url, i).value.0)
      && forall k: nat :: k < BlockFrom(doc, url, i).value.0 && Visited(doc, i, k) ==> !Opens(doc, url, k)
    ensures BlockFrom(doc, url, i).None? <==> forall k: nat :: Visited(doc, i, k) ==> !Opens(doc, url, k)
    decreases |doc| - i
  {
    if i < |doc| && !Opens(doc, url, i) {
      var n := ScanNext(doc, i);
      BlockFromFirst(doc, url, n);
      assert forall k: nat :: Visited(doc, i, k) && k != i ==> Visited(doc, n, k);
      assert forall k: nat :: Visited(doc, n, k) ==> Visited(doc, i, k);
    }
  }

  /** A found block is the first one the scan opens with the start marker of `url`; it
      runs to the nearest later end marker of `url`. */
  lemma RegistryBlockFound(doc: seq<Section>, url: string)
    requires RegistryBlock(doc, url).Some?
    ensures var (i, j) := RegistryBlock(doc, url).value;
      && i < j < |doc|
      && doc[i].name == StartMarker(url) && doc[j].name == EndMarker(url)
      && (forall k :: i < k < j ==> doc[k].name != EndMarker(url))
      && Visited(doc, 0, i)
      && (forall k: nat :: k < i && Visited(doc, 0, k) ==> !Opens(doc, url, k))
  {
    var (i, j) := RegistryBlock(doc, url).value;
    BlockFromFirst(doc, url, 0);
    MarkerNames(url, url);
    BlockEndIsNearestCloser(doc, i);
  }

  /** No block is found exactly when no position the scan visits opens a block of `url`. */
  lemma RegistryBlockMissing(doc: seq<Section>, url: string)
    ensures RegistryBlock(doc, url).None? <==> forall k: nat :: Visited(doc, 0, k) ==> !Opens(doc, url, k)
  {
    BlockFromFirst(doc, url, 0);
  }

  /** `getGeneratedSectionByRegistryURL`: the block whose identifier is exactly `url`,
      markers included, or nothing when the document has none. */
  function GeneratedSectionByRegistryURL(doc: seq<Section>, url: string): (r: seq<Section>)
    ensures (forall k :: 0 <= k < |doc| ==> doc[k].name != StartMarker(url)) ==> r == []
  {
    match RegistryBlock(doc, url)
    case Some((i, j)) => doc[i..j + 1]
    case None => []
  }

  /** The run `doc[i..j + 1]` between a start marker and the nearest end marker. */
  lemma BlockRunShape(doc: seq<Section>, url: string, i: nat, j: nat)
    requires i < j < |doc|
    requires doc[i].name == StartMarker(url) && doc[j].name == EndMarker(url)
    requires forall k :: i < k < j ==> doc[k].name != EndMarker(url)
    ensures var r := doc[i..j + 1];
      && |r| >= 2 && r[0].name == StartMarker(url) && r[|r| - 1].name == EndMarker(url)
      && (forall k :: 0 < k < |r| - 1 ==> r[k].name != EndMarker(url))
  {
    var r := doc[i..j + 1];
    assert forall k :: 0 <= k < |r| ==> r[k] == doc[i + k];
  }

  /** A non-empty by-URL result opens with the registry's start marker, closes with its
      end marker, and holds no other end marker of that registry. */
  lemma ByRegistryURLShape(doc: seq<Section>, url: string)
    ensures var r := GeneratedSectionByRegistryURL(doc, url);
      r != [] ==>
        && |r| >= 2 && r[0].name == StartMarker(url) && r[|r| - 1].name == EndMarker(url)
        && (forall k :: 0 < k < |r| - 1 ==> r[k].name != EndMarker(url))
  {
    match RegistryBlock(doc, url)
    case None =>
    case Some((i, j)) =>
      RegistryBlockFound(doc, url);
      BlockRunShape(doc, url, i, j);
  }

  /** The document without the block of `url`. */
  function RemoveRegistry(doc: seq<Section>, url: string): (r: seq<Section>)
    ensures |r| + |GeneratedSectionByRegistryURL(doc, url)| == |doc|
  {
    match RegistryBlock(doc, url)
    case None => doc
    case Some((i, j)) => doc[..i] + doc[j + 1..]
  }

  /** `x` from position `p` on and `y` from position `q` on hold the same sections. */
  predicate Agree(x: seq<Section>, y: seq<Section>, p: nat, q: nat) {
    && p <= |x| && q <= |y| && |x| - p == |y| - q
    && forall k :: p <= k < |x| ==> x[k] == y[k - p + q]
  }

  /** Two documents that agree from positions `p` and `q` on find a name at the same
      distance from there. */
  lemma {:induction false} NextNamedAgree(x: seq<Section>, y: seq<Section>, name: string, p: nat, q: nat)
    requires Agree(x, y, p, q)
    ensures NextNamed(x, name, p).None? <==> NextNamed(y, name, q).None?
    ensures NextNamed(x, name, p).Some? ==> NextNamed(x, name, p).value + q == NextNamed(y, name, q).value + p
    decreases |x| - p
  {
    if p < |x| {
      assert x[p] == y[q];
      NextNamedAgree(x, y, name, p + 1, q + 1);
    }
  }

  /** Two documents that agree from positions `p` and `q` on open blocks of the same
      length there. */
  lemma BlockEndAgree(x: seq<Section>, y: seq<Section>, p: nat, q: nat)
    requires Agree(x, y, p, q) && p < |x|
    ensures q < |y| && x[p] == y[q]
    ensures BlockEnd(x, p).None? <==> BlockEnd(y, q).None?
    ensures BlockEnd(x, p).Some? ==> BlockEnd(x, p).value + q == BlockEnd(y, q).value + p
  {
    assert x[p] == y[q];
    if IsStartMarker(x[p].name) {
      NextNamedAgree(x, y, Closer(x[p].name), p + 1, q + 1);
    }
  }

  /** Two documents that agree from positions `p` and `q` on take the same scan step
      there and still agree after it. */
  lemma AgreeNext(x: seq<Section>, y: seq<Section>, p: nat, q: nat)
    requires Agree(x, y, p, q) && p < |x|
    ensures q < |y| && ScanNext(x, p) + q == ScanNext(y, q) + p
    ensures Agree(x, y, ScanNext(x, p), ScanNext(y, q))
  {
    BlockEndAgree(x, y, p, q);
  }

  /** One scan step taken alike keeps the same sections. */
  lemma StepKept(x: seq<Section>, y: seq<Section>, p: nat, q: nat)
    requires p < |x| && q < |y| && x[p] == y[q]
    requires BlockEnd(x, p).None? <==> BlockEnd(y, q).None?
    requires KeptFrom(x, ScanNext(x, p)) == KeptFrom(y, ScanNext(y, q))
    ensures KeptFrom(x, p) == KeptFrom(y, q)
  {
    match BlockEnd(x, p)
    case Some(j) =>
      ScanBlock(x, p, j);
      ScanBlock(y, q, BlockEnd(y, q).value);
    case None =>
      ScanOutside(x, p);
      ScanOutside(y, q);
  }

  /** One scan step taken alike over equal blocks generates the same sections. */
  lemma StepGenerated(x: seq<Section>, y: seq<Section>, p: nat, q: nat)
    requires p < |x| && q < |y|
    requires BlockEnd(x, p).None? <==> BlockEnd(y, q).None?
    requires BlockEnd(x, p).Some? ==> x[p..BlockEnd(x, p).value + 1] == y[q..BlockEnd(y, q).value + 1]
    requires GeneratedFrom(x, ScanNext(x, p)) == GeneratedFrom(y, ScanNext(y, q))
    ensures GeneratedFrom(x, p) == GeneratedFrom(y, q)
  {
    match BlockEnd(x, p)
    case Some(j) =>
      ScanBlock(x, p, j);
      ScanBlock(y, q, BlockEnd(y, q).value);
    case None =>
      ScanOutside(x, p);
      ScanOutside(y, q);
  }

  /** Two documents that agree from positions `p` and `q` on keep the same sections from
      there. */
  lemma {:induction false} ScanAgreeKept(x: seq<Section>, y: seq<Section>, p: nat, q: nat)
    requires Agree(x, y, p, q)
    ensures KeptFrom(x, p) == KeptFrom(y, q)
    decreases |x| - p
  {
    if p < |x| {
      BlockEndAgree(x, y, p, q);
      AgreeNext(x, y, p, q);
      ScanAgreeKept(x, y, ScanNext(x, p), ScanNext(y, q));
      StepKept(x, y, p, q);
    }
  }

  /** Two documents that agree from positions `p` and `q` on generate the same sections
      from there. */
  lemma {:induction false} ScanAgreeGenerated(x: seq<Section>, y: seq<Section>, p: nat, q: nat)
    requires Agree(x, y, p, q)
    ensures GeneratedFrom(x, p) == GeneratedFrom(y, q)
    decreases |x| - p
  {
    if p < |x| {
      BlockEndAgree(x, y, p, q);
      AgreeNext(x, y, p, q);
      ScanAgreeGenerated(x, y, ScanNext(x, p), ScanNext(y, q));
      if BlockEnd(x, p).Some? {
        var j := BlockEnd(x, p).value;
        assert x[p..j + 1] == y[q..j + q - p + 1];
      }
      StepGenerated(x, y, p, q);
    }
  }

  /** Cutting out a run that starts after the block opening at `i` leaves that block as it
      was. */
  lemma CutBlockEnd(doc: seq<Section>, i: nat, a: nat, b: nat)
    requires i < a <= b < |doc|
    requires BlockEnd(doc, i).Some? ==> BlockEnd(doc, i).value < a
    ensures var cut := doc[..a] + doc[b + 1..];
      i < |cut| && cut[i] == doc[i] && BlockEnd(cut, i) == BlockEnd(doc, i)
  {
    var cut := doc[..a] + doc[b + 1..];
    assert forall k :: 0 <= k < a ==> cut[k] == doc[k];
    assert forall k :: a <= k < |cut| ==> cut[k] == doc[k - a + b + 1];
    if IsStartMarker(doc[i].name) {
      var name := Closer(doc[i].name);
      NextNamedNearest(doc, name, i + 1);
      NextNamedNearest(cut, name, i + 1);
    }
  }

  /** ... and the step at `i` generates the same sections in both. */
  lemma CutStepRun(doc: seq<Section>, i: nat, a: nat, b: nat)
    requires i < a <= b < |doc|
    requires BlockEnd(doc, i).Some? ==> BlockEnd(doc, i).value < a
    ensures var cut := doc[..a] + doc[b + 1..];
      i < |cut| && StepRun(cut, i) == StepRun(doc, i)
  {
    var cut := doc[..a] + doc[b + 1..];
    CutBlockEnd(doc, i, a, b);
    if BlockEnd(doc, i).Some? {
      var j := BlockEnd(doc, i).value;
      assert cut[i..j + 1] == doc[i..j + 1];
    }
  }

  /** Cutting out the block `doc[a..b + 1]` leaves the scan from `a` with what follows the
      block. */
  lemma CutAtBlock(doc: seq<Section>, a: nat, b: nat)
    requires a < |doc| && BlockEnd(doc, a) == Some(b)
    ensures var cut := doc[..a] + doc[b + 1..];
      && KeptFrom(cut, a) == KeptFrom(doc, a)
      && GeneratedFrom(doc, a) == doc[a..b + 1] + GeneratedFrom(cut, a)
  {
    var cut := doc[..a] + doc[b + 1..];
    assert Agree(cut, doc, a, b + 1);
    ScanAgreeKept(cut, doc, a, b + 1);
    ScanAgreeGenerated(cut, doc, a, b + 1);
    ScanBlock(doc, a, b);
  }

  /** The sections one scan step at `i` generates: the block opening there, or nothing. */
  function StepRun(doc: seq<Section>, i: nat): seq<Section>
    requires i < |doc|
  {
    match BlockEnd(doc, i)
    case Some(j) => doc[i..j + 1]
    case None => []
  }

  /** The generated sections from `i` are those of the step at `i` and those after it. */
  lemma GeneratedStep(doc: seq<Section>, i: nat)
    requires i < |doc|
    ensures GeneratedFrom(doc, i) == StepRun(doc, i) + GeneratedFrom(doc, ScanNext(doc, i))
  {
    if BlockEnd(doc, i).None? {
      assert [] + GeneratedFrom(doc, i + 1) == GeneratedFrom(doc, i + 1);
    }
  }

  lemma MultisetStep(run: seq<Section>, gc: seq<Section>, gd: seq<Section>, xc: seq<Section>, xd: seq<Section>, m: multiset<Section>)
    requires xc == run + gc && xd == run + gd && multiset(gc) + m == multiset(gd)
    ensures multiset(xc) + m == multiset(xd)
  {
  }

  /** A scan step at `i` that `doc` and `cut` take alike, over equal blocks, generates the
      same sections. */
  lemma CutStepGenerated(doc: seq<Section>, cut: seq<Section>, i: nat, m: multiset<Section>)
    requires i < |doc| && i < |cut| && BlockEnd(cut, i) == BlockEnd(doc, i)
    requires StepRun(cut, i) == StepRun(doc, i)
    requires multiset(GeneratedFrom(cut, ScanNext(doc, i))) + m == multiset(GeneratedFrom(doc, ScanNext(doc, i)))
    ensures multiset(GeneratedFrom(cut, i)) + m == multiset(GeneratedFrom(doc, i))
  {
    var n := ScanNext(doc, i);
    assert ScanNext(cut, i) == n;
    GeneratedStep(doc, i);
    GeneratedStep(cut, i);
    MultisetStep(StepRun(doc, i), GeneratedFrom(cut, n), GeneratedFrom(doc, n), GeneratedFrom(cut, i), GeneratedFrom(doc, i), m);
  }

  /** Cutting out the block of `url` that the scan from `i` opens leaves what the scan
      keeps from `i` on. */
  lemma {:induction false} CutScanKept(doc: seq<Section>, url: string, i: nat, a: nat, b: nat)
    requires BlockFrom(doc, url, i) == Some((a, b))
    ensures KeptFrom(doc[..a] + doc[b + 1..], i) == KeptFrom(doc, i)
    decreases |doc| - i
  {
    if Opens(doc, url, i) {
      CutAtBlock(doc, a, b);
    } else {
      var cut := doc[..a] + doc[b + 1..];
      CutBlockEnd(doc, i, a, b);
      CutScanKept(doc, url, ScanNext(doc, i), a, b);
      assert ScanNext(cut, i) == ScanNext(doc, i);
      StepKept(cut, doc, i, i);
    }
  }

  /** Cutting out the block of `url` that the scan from `i` opens takes exactly that
      block's sections from the generated ones. */
  lemma {:induction false} CutScanGenerated(doc: seq<Section>, url: string, i: nat, a: nat, b: nat)
    requires BlockFrom(doc, url, i) == Some((a, b))
    ensures multiset(GeneratedFrom(doc[..a] + doc[b + 1..], i)) + multiset(doc[a..b + 1]) == multiset(GeneratedFrom(doc, i))
    decreases |doc| - i
  {
    var cut := doc[..a] + doc[b + 1..];
    if Opens(doc, url, i) {
      CutAtBlock(doc, a, b);
    } else {
      CutBlockEnd(doc, i, a, b);
      CutStepRun(doc, i, a, b);
      CutScanGenerated(doc, url, ScanNext(doc, i), a, b);
      CutStepGenerated(doc, cut, i, multiset(doc[a..b + 1]));
    }
  }

  /** Removing the block of `url` is the scan's own removal restricted to that block: what
      the removal of all blocks keeps and the non-granted profiles stay the same, and the
      generated sections lose exactly the sections the by-URL query returns. */
  lemma RemoveRegistryIsScanBlock(doc: seq<Section>, url: string)
    ensures WithoutGenerated(RemoveRegistry(doc, url)) == WithoutGenerated(doc)
    ensures NonGrantedProfiles(RemoveRegistry(doc, url)) == NonGrantedProfiles(doc)
    ensures multiset(GrantedGeneratedSections(RemoveRegistry(doc, url))) + multiset(GeneratedSectionByRegistryURL(doc, url))
      == multiset(GrantedGeneratedSections(doc))
    ensures multiset(GeneratedSectionByRegistryURL(doc, url)) <= multiset(GrantedGeneratedSections(doc))
  {
    var r := RemoveRegistry(doc, url);
    if RegistryBlock(doc, url).Some? {
      var (a, b) := RegistryBlock(doc, url).value;
      assert r == doc[..a] + doc[b + 1..];
      assert GeneratedSectionByRegistryURL(doc, url) == doc[a..b + 1];
      CutScanKept(doc, url, 0, a, b);
      CutScanGenerated(doc, url, 0, a, b);
    }
    NonGrantedAreUserSections(doc);
    NonGrantedAreUserSections(r);
  }

  /** Cutting the run `doc[i..j + 1]` out leaves the rest of the sections, with unique
      names when they were unique. */
  lemma CutKeepsOthers(doc: seq<Section>, i: nat, j: nat)
    requires i <= j < |doc|
    ensures multiset(doc[..i] + doc[j + 1..]) + multiset(doc[i..j + 1]) == multiset(doc)
    ensures UniqueNames(doc) ==> UniqueNames(doc[..i] + doc[j + 1..])
    ensures UniqueNames(doc) ==>
      var r := doc[..i] + doc[j + 1..];
      forall k :: 0 <= k < |r| ==> r[k].name != doc[i].name
  {
    assert doc == doc[..i] + doc[i..j + 1] + doc[j + 1..];
    if UniqueNames(doc) {
      CutUnique(doc, i, j);
    }
  }

  /** Cutting a run out of a document with unique names leaves unique names, none of them
      the run's first. */
  lemma CutUnique(doc: seq<Section>, i: nat, j: nat)
    requires i <= j < |doc| && UniqueNames(doc)
    ensures UniqueNames(doc[..i] + doc[j + 1..])
    ensures var r := doc[..i] + doc[j + 1..];
      forall k :: 0 <= k < |r| ==> r[k].name != doc[i].name
  {
    var r := doc[..i] + doc[j + 1..];
    assert forall k :: 0 <= k < i ==> r[k] == doc[k];
    assert forall k :: i <= k < |r| ==> r[k] == doc[k - i + j + 1];
    forall a, b | 0 <= a < b < |r| ensures r[a].name != r[b].name {
      var a' := if a < i then a else a - i + j + 1;
      var b' := if b < i then b else b - i + j + 1;
      assert r[a] == doc[a'] && r[b] == doc[b'] && a' < b';
    }
  }

  /** Removing a registry's block leaves every other section and keeps names unique; in a
      document with unique names the registry then has no block left. */
  lemma RemoveRegistryKeepsOthers(doc: seq<Section>, url: string)
    ensures multiset(RemoveRegistry(doc, url)) + multiset(GeneratedSectionByRegistryURL(doc, url)) == multiset(doc)
    ensures UniqueNames(doc) ==> UniqueNames(RemoveRegistry(doc, url))
    ensures UniqueNames(doc) ==> GeneratedSectionByRegistryURL(RemoveRegistry(doc, url), url) == []
  {
    match RegistryBlock(doc, url)
    case None =>
    case Some((i, j)) =>
      RegistryBlockFound(doc, url);
      CutKeepsOthers(doc, i, j);
  }

  /** The sections of a registry's source document from position `i` on, DEFAULT left
      out. */
  function ProfilesFrom(src: seq<Section>, i: nat): seq<Section>
    decreases |src| - i
  {
    if i >= |src| then []
    else (if src[i].name == DefaultSection then [] else [src[i]]) + ProfilesFrom(src, i + 1)
  }

  /** The profiles a registry contributes: its source document without DEFAULT. */
  function ProfileSections(src: seq<Section>): seq<Section> {
    ProfilesFrom(src, 0)
  }

  /** The namespace of a registry identifier: the text after the scheme, the host and the
      owner, with ".git" dropped from the repository name and every '/' turned into '_'
      (`https://github.com/octo/repo_one.git/config.yml` gives `repo_one_config.yml`). */
  function RegistryNamespace(url: string): (ns: string)
    ensures '/' !in ns
  {
    var path := AfterSlash(StripScheme(url));
    RepoNamespace(if '/' in path then AfterSlash(path) else path)
  }

  /** The identifier without its scheme: the text after the first "://", if any. */
  function StripScheme(url: string): string {
    match IndexOfText(url, "://") case Some(k) => url[k + 3..] case None => url
  }

  /** The namespace of the path that follows the owner: the first segment without ".git",
      then the rest of the path, with every '/' turned into '_'. */
  function RepoNamespace(repoPath: string): (ns: string)
    ensures '/' !in ns
  {
    var repo := match IndexOfChar(repoPath, '/') case Some(k) => repoPath[..k] case None => repoPath;
    ReplaceChar(TrimGit(repo) + repoPath[|repo|..], '/', '_')
  }

  /** An https identifier loses exactly its "https://". */
  lemma StripHttps(rest: string)
    ensures StripScheme("https://" + rest) == rest
  {
    var url := "https://" + rest;
    assert url[5..8] == "://";
    forall k | 0 <= k < 5 ensures !OccursAt(url, "://", k) {
      assert url[k] != ':';
    }
    IndexOfTextFirst(url, "://", 5);
    assert url[8..] == rest;
  }

  /** The text after a first segment without '/'. */
  lemma AfterSlashSplit(a: string, b: string)
    requires '/' !in a
    ensures AfterSlash(a + "/" + b) == b
  {
    var s := a + "/" + b;
    FirstSlash(a, b);
    assert s[|a| + 1..] == b;
  }

  /** A repository segment `repo.git` alone gives `repo`. */
  lemma RepoNamespaceGit(repo: string)
    requires '/' !in repo
    ensures RepoNamespace(repo + ".git") == repo
  {
    var p := repo + ".git";
    GitSegment(repo);
    assert IndexOfChar(p, '/') == None;
    assert p[|p|..] == [];
    assert repo + [] == repo;
    ReplaceCharAbsent(repo, '/', '_');
  }

  /** `repo.git` holds no '/' when `repo` holds none, and trimming gives `repo` back. */
  lemma GitSegment(repo: string)
    requires '/' !in repo
    ensures '/' !in repo + ".git" && TrimGit(repo + ".git") == repo
  {
    var seg := repo + ".git";
    assert forall i :: 0 <= i < |seg| ==> seg[i] == (if i < |repo| then repo[i] else ".git"[i - |repo|]);
    assert seg[|seg| - 4..] == ".git" && seg[..|seg| - 4] == repo;
  }

  /** A repository segment `repo.git` followed by `/file` gives `repo_file`. */
  lemma RepoNamespaceGitFile(repo: string, file: string)
    requires '/' !in repo && '/' !in file
    ensures RepoNamespace(repo + ".git" + "/" + file) == repo + "_" + file
  {
    var seg := repo + ".git";
    var p := seg + "/" + file;
    GitSegment(repo);
    FirstSlash(seg, file);
    assert p[..|seg|] == seg && p[|seg|..] == "/" + file;
    assert repo + ("/" + file) == repo + "/" + file;
    ReplaceJoin(repo, file);
  }

  /** In `a/b` with no '/' in `a`, the first '/' follows `a`. */
  lemma FirstSlash(a: string, b: string)
    requires '/' !in a
    ensures IndexOfChar(a + "/" + b, '/') == Some(|a|)
  {
    var s := a + "/" + b;
    assert s[|a|] == '/' && s[..|a|] == a;
  }

  lemma ReplaceJoin(repo: string, file: string)
    requires '/' !in repo && '/' !in file
    ensures ReplaceChar(repo + "/" + file, '/', '_') == repo + "_" + file
  {
    var joined := repo + "/" + file;
    var want := repo + "_" + file;
    var r := ReplaceChar(joined, '/', '_');
    forall i | 0 <= i < |joined| ensures r[i] == want[i] {
      if i < |repo| {
        assert joined[i] == repo[i] && want[i] == repo[i];
        assert repo[i] in repo;
      } else if i > |repo| {
        assert joined[i] == file[i - |repo| - 1] && want[i] == file[i - |repo| - 1];
        assert file[i - |repo| - 1] in file;
      }
    }
  }

  /** `https://host/owner/repo.git` has namespace `repo`. */
  lemma NamespaceOfRepository(host: string, owner: string, repo: string)
    requires '/' !in host && '/' !in owner && '/' !in repo
    ensures RegistryNamespace("https://" + host + "/" + owner + "/" + repo + ".git") == repo
  {
    var tail := repo + ".git";
    var path := owner + "/" + tail;
    var rest := host + "/" + path;
    assert "https://" + host + "/" + owner + "/" + repo + ".git" == "https://" + rest;
    StripHttps(rest);
    AfterSlashSplit(host, path);
    AfterSlashSplit(owner, tail);
    assert path[|owner|] == '/';
    RepoNamespaceGit(repo);
  }

  /** `https://host/owner/repo.git/file` has namespace `repo_file`: two files of one
      repository get different namespaces. */
  lemma NamespaceOfRepositoryFile(host: string, owner: string, repo: string, file: string)
    requires '/' !in host && '/' !in owner && '/' !in repo && '/' !in file
    ensures RegistryNamespace("https://" + host + "/" + owner + "/" + repo + ".git" + "/" + file) == repo + "_" + file
  {
    var tail := repo + ".git" + "/" + file;
    var path := owner + "/" + tail;
    var rest := host + "/" + path;
    assert "https://" + host + "/" + owner + "/" + repo + ".git" + "/" + file == "https://" + rest;
    StripHttps(rest);
    AfterSlashSplit(host, path);
    AfterSlashSplit(owner, tail);
    assert path[|owner|] == '/';
    RepoNamespaceGitFile(repo, file);
  }

  /** The text after the first '/', or nothing when there is none. */
  function AfterSlash(s: string): string {
    match IndexOfChar(s, '/') case Some(k) => s[k + 1..] case None => ""
  }

  function TrimGit(segment: string): string {
    if |segment| >= 4 && segment[|segment| - 4..] == ".git" then segment[..|segment| - 4] else segment
  }

  /** The disambiguated name of a colliding section: the registry namespace and a dot go
      in front of the profile name, after the `profile ` keyword when there is one. */
  function RenameForRegistry(name: string, url: string): (r: string)
    ensures HasPrefix(name, ProfileKeyword) ==> HasPrefix(r, ProfileKeyword)
    ensures |r| == |name| + |RegistryNamespace(url)| + 1
  {
    if HasPrefix(name, ProfileKeyword) then
      ProfileKeyword + RegistryNamespace(url) + "." + name[|ProfileKeyword|..]
    else RegistryNamespace(url) + "." + name
  }

  datatype RegistryError =
    | DuplicateRegistry(url: string)   // the registry's markers are already in the document
    | NameCollision(name: string)      // a renamed profile still collides

  /** The set of section names of `doc`. */
  function NamesOf(doc: seq<Section>): set<string> {
    set k | 0 <= k < |doc| :: doc[k].name
  }

  /** The name a source section gets in the block: its own unless already taken. */
  function BlockName(taken: set<string>, name: string, url: string): string {
    if name in taken then RenameForRegistry(name, url) else name
  }

  /** The profiles placed between the markers of a new block, from position `i` of the
      source on, given the names already taken: the source's sections in order, DEFAULT
      skipped, each under its `BlockName`, which is taken in turn; a renamed name that is
      still taken is an error. */
  function BodyFrom(taken: set<string>, src: seq<Section>, url: string, i: nat): (r: Result<seq<Section>, RegistryError>)
    ensures r.Failure? ==> r.error.NameCollision?
    decreases |src| - i
  {
    if i >= |src| then Success([])
    else if src[i].name == DefaultSection then BodyFrom(taken, src, url, i + 1)
    else
      var name := BlockName(taken, src[i].name, url);
      if name in taken then Failure(NameCollision(name))
      else Prepend([Section(name, src[i].keys)], BodyFrom(taken + {name}, src, url, i + 1))
  }

  /** The turn of source profile `i`: its name in the block, and the error when that name
      is still taken. */
  lemma BodyTurn(taken: set<string>, src: seq<Section>, url: string, i: nat)
    requires i < |src| && src[i].name != DefaultSection
    ensures var name := BlockName(taken, src[i].name, url);
      && (name in taken ==> BodyFrom(taken, src, url, i) == Failure(NameCollision(name)))
      && (name !in taken ==>
            BodyFrom(taken, src, url, i) == Prepend([Section(name, src[i].keys)], BodyFrom(taken + {name}, src, url, i + 1)))
  {
  }

  function Prepend(prefix: seq<Section>, r: Result<seq<Section>, RegistryError>): Result<seq<Section>, RegistryError> {
    match r
    case Success(rest) => Success(prefix + rest)
    case Failure(e) => Failure(e)
  }

  /** One step of the body over a source profile. */
  lemma BodyStep(taken: set<string>, src: seq<Section>, url: string, i: nat)
    requires i < |src| && src[i].name != DefaultSection && BodyFrom(taken, src, url, i).Success?
    ensures var name := BlockName(taken, src[i].name, url);
      && name !in taken
      && BodyFrom(taken + {name}, src, url, i + 1).Success?
      && BodyFrom(taken, src, url, i).value == [Section(name, src[i].keys)] + BodyFrom(taken + {name}, src, url, i + 1).value
      && ProfilesFrom(src, i) == [src[i]] + ProfilesFrom(src, i + 1)
  {
  }

  /** One step of the body over the source's DEFAULT section. */
  lemma BodySkip(taken: set<string>, src: seq<Section>, url: string, i: nat)
    requires i < |src| && src[i].name == DefaultSection
    ensures BodyFrom(taken, src, url, i) == BodyFrom(taken, src, url, i + 1)
    ensures ProfilesFrom(src, i) == ProfilesFrom(src, i + 1)
  {
  }

  /** The block body holds the source's profiles in order with their keys, each under its
      own name or its renamed one. */
  lemma {:induction false} BodyShape(taken: set<string>, src: seq<Section>, url: string, i: nat)
    requires BodyFrom(taken, src, url, i).Success?
    ensures var body, profiles := BodyFrom(taken, src, url, i).value, ProfilesFrom(src, i);
      && |body| == |profiles|
      && (forall k :: 0 <= k < |body| ==> body[k].keys == profiles[k].keys)
      && (forall k :: 0 <= k < |body| ==>
            body[k].name == profiles[k].name || body[k].name == RenameForRegistry(profiles[k].name, url))
    decreases |src| - i
  {
    if i < |src| {
      if src[i].name == DefaultSection {
        BodySkip(taken, src, url, i);
        BodyShape(taken, src, url, i + 1);
      } else {
        var name := BlockName(taken, src[i].name, url);
        BodyStep(taken, src, url, i);
        BodyShape(taken + {name}, src, url, i + 1);
      }
    }
  }

  /** No name of the block body was taken before, and no two are equal. */
  lemma {:induction false} BodyNamesFresh(taken: set<string>, src: seq<Section>, url: string, i: nat)
    requires BodyFrom(taken, src, url, i).Success?
    ensures var body := BodyFrom(taken, src, url, i).value;
      && (forall k :: 0 <= k < |body| ==> body[k].name !in taken)
      && UniqueNames(body)
    decreases |src| - i
  {
    if i < |src| {
      if src[i].name == DefaultSection {
        BodySkip(taken, src, url, i);
        BodyNamesFresh(taken, src, url, i + 1);
      } else {
        var name := BlockName(taken, src[i].name, url);
        BodyStep(taken, src, url, i);
        BodyNamesFresh(taken + {name}, src, url, i + 1);
        var rest := BodyFrom(taken + {name}, src, url, i + 1).value;
        var body := [Section(name, src[i].keys)] + rest;
        forall a, b | 0 <= a < b < |body| ensures body[a].name != body[b].name {
          assert body[b] == rest[b - 1];
          if a > 0 {
            assert body[a] == rest[a - 1];
          }
        }
      }
    }
  }

  /** Whether each profile of `body` kept its name exactly when that name was free. */
  predicate KeepsFreeNames(taken: set<string>, body: seq<Section>, profiles: seq<Section>)
    requires |body| == |profiles|
  {
    forall k :: 0 <= k < |body| ==>
      (body[k].name == profiles[k].name <==>
         profiles[k].name !in taken && forall m :: 0 <= m < k ==> body[m].name != profiles[k].name)
  }

  lemma KeepsFreeNamesCons(taken: set<string>, b: Section, p: Section, rest: seq<Section>, prest: seq<Section>)
    requires |rest| == |prest| && KeepsFreeNames(taken + {b.name}, rest, prest)
    requires b.name == p.name <==> p.name !in taken
    ensures KeepsFreeNames(taken, [b] + rest, [p] + prest)
  {
    var body, profiles := [b] + rest, [p] + prest;
    forall k | 0 < k < |body|
      ensures body[k].name == profiles[k].name <==>
        profiles[k].name !in taken && forall m :: 0 <= m < k ==> body[m].name != profiles[k].name
    {
      var pk := prest[k - 1].name;
      assert body[k] == rest[k - 1] && profiles[k] == prest[k - 1];
      assert (forall m :: 0 <= m < k ==> body[m].name != pk) <==>
             (b.name != pk && forall m :: 0 <= m < k - 1 ==> rest[m].name != pk) by {
        if forall m :: 0 <= m < k ==> body[m].name != pk {
          assert body[0] == b;
          forall m | 0 <= m < k - 1 ensures rest[m].name != pk {
            assert body[m + 1] == rest[m];
          }
        }
        if b.name != pk && forall m :: 0 <= m < k - 1 ==> rest[m].name != pk {
          forall m | 0 < m < k ensures body[m].name != pk {
            assert body[m] == rest[m - 1];
          }
        }
      }
    }
  }

  /** A profile keeps its name exactly when that name is neither taken nor given to an
      earlier profile of the body. */
  lemma {:induction false} BodyKeepsFreeNames(taken: set<string>, src: seq<Section>, url: string, i: nat)
    requires BodyFrom(taken, src, url, i).Success?
    ensures |BodyFrom(taken, src, url, i).value| == |ProfilesFrom(src, i)|
    ensures KeepsFreeNames(taken, BodyFrom(taken, src, url, i).value, ProfilesFrom(src, i))
    decreases |src| - i
  {
    BodyShape(taken, src, url, i);
    if i < |src| {
      if src[i].name == DefaultSection {
        BodySkip(taken, src, url, i);
        BodyKeepsFreeNames(taken, src, url, i + 1);
      } else {
        var name := BlockName(taken, src[i].name, url);
        BodyStep(taken, src, url, i);
        BodyKeepsFreeNames(taken + {name}, src, url, i + 1);
        if src[i].name in taken {
          assert |name| > |src[i].name|;
        }
        KeepsFreeNamesCons(taken, Section(name, src[i].keys), src[i],
                           BodyFrom(taken + {name}, src, url, i + 1).value, ProfilesFrom(src, i + 1));
      }
    }
  }

  /** The names of a section put in front of others. */
  lemma NamesOfCons(s: Section, rest: seq<Section>)
    ensures NamesOf([s] + rest) == {s.name} + NamesOf(rest)
  {
    var c := [s] + rest;
    assert c[0] == s;
    forall x | x in NamesOf(rest) ensures x in NamesOf(c) {
      var k :| 0 <= k < |rest| && rest[k].name == x;
      assert c[k + 1] == rest[k];
    }
    forall x | x in NamesOf(c) ensures x in {s.name} + NamesOf(rest) {
      var k :| 0 <= k < |c| && c[k].name == x;
      if k > 0 {
        assert c[k] == rest[k - 1];
      }
    }
  }

  /** Source profile `k` is where building the body from position `i` fails: the
      profiles from `i` up to it got their names, and by then both its own name and its
      renamed one are taken, either before the block or by an earlier profile of it. */
  predicate CollidesAt(taken: set<string>, src: seq<Section>, url: string, i: nat, k: nat) {
    && i <= k < |src| && src[k].name != DefaultSection
    && var before := BodyFrom(taken, src[..k], url, i);
    && before.Success?
    && var given := taken + NamesOf(before.value);
    && src[k].name in given && RenameForRegistry(src[k].name, url) in given
  }

  /** Profile `i` collides at its own turn exactly when its block name is taken. */
  lemma CollidesHere(taken: set<string>, src: seq<Section>, url: string, i: nat)
    requires i < |src| && src[i].name != DefaultSection
    ensures CollidesAt(taken, src, url, i, i) <==> BlockName(taken, src[i].name, url) in taken
  {
    assert BodyFrom(taken, src[..i], url, i) == Success([]);
    assert NamesOf([]) == {};
  }

  /** Over DEFAULT, a later collision is the same from `i` and from `i + 1`. */
  lemma CollidesSkip(taken: set<string>, src: seq<Section>, url: string, i: nat, k: nat)
    requires i < k <= |src| && src[i].name == DefaultSection
    ensures CollidesAt(taken, src, url, i, k) <==> CollidesAt(taken, src, url, i + 1, k)
  {
    var pre := src[..k];
    assert pre[i] == src[i];
    assert BodyFrom(taken, pre, url, i) == BodyFrom(taken, pre, url, i + 1);
  }

  /** Over a profile that takes a free name, a later collision from `i` is one from
      `i + 1` with that name taken. */
  lemma CollidesNext(taken: set<string>, src: seq<Section>, url: string, i: nat, k: nat)
    requires i < k <= |src| && src[i].name != DefaultSection
    requires BlockName(taken, src[i].name, url) !in taken
    ensures var name := BlockName(taken, src[i].name, url);
      CollidesAt(taken, src, url, i, k) <==> CollidesAt(taken + {name}, src, url, i + 1, k)
  {
    var pre, name := src[..k], BlockName(taken, src[i].name, url);
    assert pre[i] == src[i];
    BodyTurn(taken, pre, url, i);
    var rest := BodyFrom(taken + {name}, pre, url, i + 1);
    if rest.Success? {
      NamesOfCons(Section(name, src[i].keys), rest.value);
    }
  }

  /** Building the body from `i` fails when a later profile collides. */
  lemma {:induction false} BodyFailsAt(taken: set<string>, src: seq<Section>, url: string, i: nat, k: nat)
    requires CollidesAt(taken, src, url, i, k)
    ensures BodyFrom(taken, src, url, i).Failure?
    decreases k - i
  {
    if src[i].name == DefaultSection {
      CollidesSkip(taken, src, url, i, k);
      BodyFailsAt(taken, src, url, i + 1, k);
    } else {
      var name := BlockName(taken, src[i].name, url);
      BodyTurn(taken, src, url, i);
      if k == i {
        CollidesHere(taken, src, url, i);
      } else if name !in taken {
        CollidesNext(taken, src, url, i, k);
        BodyFailsAt(taken + {name}, src, url, i + 1, k);
      }
    }
  }

  /** A failing body has a profile where it collides. */
  lemma {:induction false} BodyFailureWitness(taken: set<string>, src: seq<Section>, url: string, i: nat)
    requires BodyFrom(taken, src, url, i).Failure?
    ensures exists k: nat :: CollidesAt(taken, src, url, i, k)
    decreases |src| - i
  {
    assert i < |src|;
    if src[i].name == DefaultSection {
      BodyFailureWitness(taken, src, url, i + 1);
      var k: nat :| CollidesAt(taken, src, url, i + 1, k);
      CollidesSkip(taken, src, url, i, k);
    } else {
      var name := BlockName(taken, src[i].name, url);
      BodyTurn(taken, src, url, i);
      CollidesHere(taken, src, url, i);
      if name !in taken {
        BodyFailureWitness(taken + {name}, src, url, i + 1);
        var k: nat :| CollidesAt(taken + {name}, src, url, i + 1, k);
        CollidesNext(taken, src, url, i, k);
      }
    }
  }

  /** Building the body fails exactly when some profile finds both its own name and its
      renamed one taken at its turn. */
  lemma BodyFails(taken: set<string>, src: seq<Section>, url: string, i: nat)
    ensures BodyFrom(taken, src, url, i).Failure? <==> exists k: nat :: CollidesAt(taken, src, url, i, k)
  {
    if BodyFrom(taken, src, url, i).Failure? {
      BodyFailureWitness(taken, src, url, i);
    } else if k: nat :| CollidesAt(taken, src, url, i, k) {
      BodyFailsAt(taken, src, url, i, k);
    }
  }

  /** Profiles whose names are distinct and free all keep their names: the body is the
      source's profiles as they are. */
  lemma {:induction false} BodyOfFreeNames(taken: set<string>, src: seq<Section>, url: string, i: nat)
    requires forall k :: i <= k < |src| && src[k].name != DefaultSection ==> src[k].name !in taken
    requires forall a, b :: i <= a < b < |src| && src[a].name != DefaultSection ==> src[a].name != src[b].name
    ensures BodyFrom(taken, src, url, i) == Success(ProfilesFrom(src, i))
    decreases |src| - i
  {
    if i < |src| {
      if src[i].name == DefaultSection {
        BodyOfFreeNames(taken, src, url, i + 1);
        assert ProfilesFrom(src, i) == ProfilesFrom(src, i + 1);
      } else {
        BodyOfFreeNames(taken + {src[i].name}, src, url, i + 1);
      }
    }
  }

  /** The names a new block for `url` may not use: every section name of `base` and the
      registry's two markers. */
  function Reserved(base: seq<Section>, url: string): set<string> {
    NamesOf(base) + {StartMarker(url), EndMarker(url)}
  }

  /** The document a new block for `url` is appended to. */
  function Base(doc: seq<Section>, url: string, overwrite: bool): seq<Section> {
    if overwrite then RemoveRegistry(doc, url) else doc
  }

  /** `generateNewRegistrySection` on a document: with `overwrite` the registry's old block
      goes first; a marker of `url` still present is an error; otherwise the start marker,
      the block body and the end marker are appended. */
  function Generate(doc: seq<Section>, src: seq<Section>, url: string, overwrite: bool): (r: Result<seq<Section>, RegistryError>)
    ensures r.Failure? && r.error.DuplicateRegistry? ==> r.error.url == url
    ensures r.Failure? && r.error.DuplicateRegistry? <==>
      var base := Base(doc, url, overwrite);
      IndexOf(base, StartMarker(url)).Some? || IndexOf(base, EndMarker(url)).Some?
  {
    var base := Base(doc, url, overwrite);
    if IndexOf(base, StartMarker(url)).Some? || IndexOf(base, EndMarker(url)).Some? then
      Failure(DuplicateRegistry(url))
    else match BodyFrom(Reserved(base, url), src, url, 0)
      case Failure(e) => Failure(e)
      case Success(body) => Success(base + [Section(StartMarker(url), [])] + body + [Section(EndMarker(url), [])])
  }

  /** Without `overwrite`, a registry that already has a block is refused. */
  lemma GenerateRejectsExistingBlock(doc: seq<Section>, src: seq<Section>, url: string)
    requires RegistryBlock(doc, url).Some?
    ensures Generate(doc, src, url, false) == Failure(DuplicateRegistry(url))
  {
  }

  /** A generated document is the base followed by the new block: the start marker, the
      source's profiles in order with their keys, each under its own or its renamed name,
      and the end marker. */
  lemma GenerateAppendsBlock(doc: seq<Section>, src: seq<Section>, url: string, overwrite: bool)
    requires Generate(doc, src, url, overwrite).Success?
    ensures var base, r, profiles := Base(doc, url, overwrite), Generate(doc, src, url, overwrite).value, ProfileSections(src);
      && |r| == |base| + |profiles| + 2
      && r[..|base|] == base
      && r[|base|] == Section(StartMarker(url), [])
      && r[|r| - 1] == Section(EndMarker(url), [])
      && (forall k :: 0 <= k < |profiles| ==> r[|base| + 1 + k].keys == profiles[k].keys)
      && (forall k :: 0 <= k < |profiles| ==>
            r[|base| + 1 + k].name == profiles[k].name ||
            r[|base| + 1 + k].name == RenameForRegistry(profiles[k].name, url))
  {
    var base, profiles := Base(doc, url, overwrite), ProfileSections(src);
    GenerateValue(doc, src, url, overwrite);
    var body := BodyFrom(Reserved(base, url), src, url, 0).value;
    BodyShape(Reserved(base, url), src, url, 0);
    BlockLayout(base, body, url);
    var r := base + [Section(StartMarker(url), [])] + body + [Section(EndMarker(url), [])];
    forall k | 0 <= k < |profiles|
      ensures r[|base| + 1 + k].keys == profiles[k].keys
      ensures r[|base| + 1 + k].name == profiles[k].name || r[|base| + 1 + k].name == RenameForRegistry(profiles[k].name, url)
    {
      assert r[|base| + 1 + k] == body[k];
    }
  }

  /** What a successful generation returns, and when it succeeds. */
  lemma GenerateValue(doc: seq<Section>, src: seq<Section>, url: string, overwrite: bool)
    requires Generate(doc, src, url, overwrite).Success? || (
      && IndexOf(Base(doc, url, overwrite), StartMarker(url)).None?
      && IndexOf(Base(doc, url, overwrite), EndMarker(url)).None?
      && BodyFrom(Reserved(Base(doc, url, overwrite), url), src, url, 0).Success?)
    ensures Generate(doc, src, url, overwrite).Success?
    ensures var base := Base(doc, url, overwrite);
      && IndexOf(base, StartMarker(url)).None? && IndexOf(base, EndMarker(url)).None?
      && BodyFrom(Reserved(base, url), src, url, 0).Success?
      && Generate(doc, src, url, overwrite).value
         == base + [Section(StartMarker(url), [])] + BodyFrom(Reserved(base, url), src, url, 0).value
            + [Section(EndMarker(url), [])]
  {
  }

  /** Generation succeeds exactly when no marker of `url` remains in the base and no
      profile of the source collides at its turn. */
  lemma GenerateSucceeds(doc: seq<Section>, src: seq<Section>, url: string, overwrite: bool)
    ensures var base := Base(doc, url, overwrite);
      Generate(doc, src, url, overwrite).Success? <==>
        && IndexOf(base, StartMarker(url)).None? && IndexOf(base, EndMarker(url)).None?
        && !exists k: nat :: CollidesAt(Reserved(base, url), src, url, 0, k)
  {
    BodyFails(Reserved(Base(doc, url, overwrite), url), src, url, 0);
  }

  /** A source whose profile names are distinct and free in the base is appended as it
      is, between the registry's markers. */
  lemma GenerateFreeSource(doc: seq<Section>, src: seq<Section>, url: string, overwrite: bool)
    requires IndexOf(Base(doc, url, overwrite), StartMarker(url)).None?
    requires IndexOf(Base(doc, url, overwrite), EndMarker(url)).None?
    requires forall k :: 0 <= k < |src| && src[k].name != DefaultSection ==>
      src[k].name !in Reserved(Base(doc, url, overwrite), url)
    requires forall a, b :: 0 <= a < b < |src| && src[a].name != DefaultSection ==> src[a].name != src[b].name
    ensures Generate(doc, src, url, overwrite)
      == Success(Base(doc, url, overwrite) + [Section(StartMarker(url), [])] + ProfileSections(src)
                 + [Section(EndMarker(url), [])])
  {
    BodyOfFreeNames(Reserved(Base(doc, url, overwrite), url), src, url, 0);
  }

  /** Where the parts of `base + [start] + body + [end]` sit. */
  lemma BlockLayout(base: seq<Section>, body: seq<Section>, url: string)
    ensures var r := base + [Section(StartMarker(url), [])] + body + [Section(EndMarker(url), [])];
      && |r| == |base| + |body| + 2
      && r[..|base|] == base
      && r[|base|] == Section(StartMarker(url), [])
      && r[|r| - 1] == Section(EndMarker(url), [])
      && forall k :: 0 <= k < |body| ==> r[|base| + 1 + k] == body[k]
  {
    var r := base + [Section(StartMarker(url), [])] + body + [Section(EndMarker(url), [])];
    assert r[..|base|] == base;
  }

  /** A name of the block body differs from every name of the base and from both markers. */
  lemma BodyAvoidsBase(base: seq<Section>, body: seq<Section>, url: string)
    requires forall k :: 0 <= k < |body| ==> body[k].name !in Reserved(base, url)
    ensures forall a, b :: 0 <= a < |base| && 0 <= b < |body| ==> base[a].name != body[b].name
    ensures forall k :: 0 <= k < |body| ==> body[k].name != StartMarker(url) && body[k].name != EndMarker(url)
  {
    forall a, b | 0 <= a < |base| && 0 <= b < |body| ensures base[a].name != body[b].name {
      assert base[a].name in NamesOf(base);
    }
  }

  /** Generation keeps section names unique. */
  lemma GenerateUnique(doc: seq<Section>, src: seq<Section>, url: string, overwrite: bool)
    requires UniqueNames(doc) && Generate(doc, src, url, overwrite).Success?
    ensures UniqueNames(Generate(doc, src, url, overwrite).value)
  {
    var base := Base(doc, url, overwrite);
    RemoveRegistryKeepsOthers(doc, url);
    GenerateValue(doc, src, url, overwrite);
    BodyNamesFresh(Reserved(base, url), src, url, 0);
    BlockUnique(base, BodyFrom(Reserved(base, url), src, url, 0).value, url);
  }

  /** A body of fresh, distinct names between the markers keeps a document's names
      unique. */
  lemma BlockUnique(base: seq<Section>, body: seq<Section>, url: string)
    requires UniqueNames(base) && UniqueNames(body)
    requires IndexOf(base, StartMarker(url)).None? && IndexOf(base, EndMarker(url)).None?
    requires forall k :: 0 <= k < |body| ==> body[k].name !in Reserved(base, url)
    ensures UniqueNames(base + [Section(StartMarker(url), [])] + body + [Section(EndMarker(url), [])])
  {
    BodyAvoidsBase(base, body, url);
    var start, end := Section(StartMarker(url), []), Section(EndMarker(url), []);
    MarkerNames(url, url);
    UniqueAppend([start], body);
    UniqueAppend([start] + body, [end]);
    UniqueAppend(base, [start] + body + [end]);
    assert base + [start] + body + [end] == base + ([start] + body + [end]);
  }

  /** In `base + [start] + body + [end]`, with no start marker of `url` in `base` and no
      end marker of any registry in `body`, the block of `url` spans exactly the appended
      part: no block opening in `base` reaches past it. */
  lemma AppendedBlockIsFound(base: seq<Section>, body: seq<Section>, url: string)
    requires IndexOf(base, StartMarker(url)).None?
    requires forall k :: 0 <= k < |body| ==> !IsEndMarker(body[k].name)
    ensures var r := base + [Section(StartMarker(url), [])] + body + [Section(EndMarker(url), [])];
      RegistryBlock(r, url) == Some((|base|, |r| - 1))
  {
    var r := base + [Section(StartMarker(url), [])] + body + [Section(EndMarker(url), [])];
    BlockLayout(base, body, url);
    assert forall k :: 0 <= k < |base| ==> r[k] == base[k];
    forall k | |base| < k < |r| - 1 ensures !IsEndMarker(r[k].name) {
      assert r[k] == body[k - |base| - 1];
    }
    AppendedScan(r, |base|, url, 0);
  }

  /** The scan of a document whose only start marker of `url` sits at `n`, followed by no
      end marker but the last section, the end marker of `url`, steps from any position up
      to `n` onto `n` and finds the block there. */
  lemma {:induction false} AppendedScan(r: seq<Section>, n: nat, url: string, i: nat)
    requires i <= n < |r| - 1
    requires r[n].name == StartMarker(url) && r[|r| - 1].name == EndMarker(url)
    requires forall k :: 0 <= k < n ==> r[k].name != StartMarker(url)
    requires forall k :: n < k < |r| - 1 ==> !IsEndMarker(r[k].name)
    ensures BlockFrom(r, url, i) == Some((n, |r| - 1))
    decreases n - i
  {
    MarkerNames(url, url);
    if i == n {
      NextNamedNearest(r, EndMarker(url), n + 1);
      assert NextNamed(r, EndMarker(url), n + 1) == Some(|r| - 1);
    } else {
      if BlockEnd(r, i).Some? {
        var j := BlockEnd(r, i).value;
        BlockEndIsNearestCloser(r, i);
        CloserIs(r[i].name, url);
        assert j < n;
      }
      AppendedScan(r, n, url, ScanNext(r, i));
    }
  }

  /** No profile of the source, under its own name or renamed for `url`, bears the name of
      an end marker. */
  predicate NoEndMarkerNames(src: seq<Section>, url: string) {
    forall s :: s in ProfileSections(src) ==> !IsEndMarker(s.name) && !IsEndMarker(RenameForRegistry(s.name, url))
  }

  /** A source whose profiles are all `profile ...` sections bears no end marker name,
      renamed or not. */
  lemma ProfileSourcesNoEndMarker(src: seq<Section>, url: string)
    requires forall s :: s in ProfileSections(src) ==> HasPrefix(s.name, ProfileKeyword)
    ensures NoEndMarkerNames(src, url)
  {
    forall s | s in ProfileSections(src)
      ensures !IsEndMarker(s.name) && !IsEndMarker(RenameForRegistry(s.name, url))
    {
      var renamed := RenameForRegistry(s.name, url);
      assert s.name[0] == ProfileKeyword[0] && renamed[0] == ProfileKeyword[0];
      assert EndPrefix[0] != ProfileKeyword[0];
    }
  }

  /** A block body built from such a source holds no end marker. */
  lemma BodyNoEndMarker(taken: set<string>, src: seq<Section>, url: string)
    requires BodyFrom(taken, src, url, 0).Success? && NoEndMarkerNames(src, url)
    ensures var body := BodyFrom(taken, src, url, 0).value;
      forall k :: 0 <= k < |body| ==> !IsEndMarker(body[k].name)
  {
    var body, profiles := BodyFrom(taken, src, url, 0).value, ProfileSections(src);
    BodyShape(taken, src, url, 0);
    forall k | 0 <= k < |body| ensures !IsEndMarker(body[k].name) {
      assert profiles[k] in profiles;
    }
  }

  /** The new block is exactly what the by-URL query finds afterwards, when the source
      bears no end marker name. */
  lemma GenerateFoundByURL(doc: seq<Section>, src: seq<Section>, url: string, overwrite: bool)
    requires Generate(doc, src, url, overwrite).Success? && NoEndMarkerNames(src, url)
    ensures var base, r := Base(doc, url, overwrite), Generate(doc, src, url, overwrite).value;
      GeneratedSectionByRegistryURL(r, url) == r[|base|..]
  {
    var base := Base(doc, url, overwrite);
    GenerateValue(doc, src, url, overwrite);
    var body := BodyFrom(Reserved(base, url), src, url, 0).value;
    BodyNoEndMarker(Reserved(base, url), src, url);
    AppendedBlockIsFound(base, body, url);
  }

  /** Regenerating with `overwrite` from the same source reproduces the same document,
      when the source bears no end marker name. */
  lemma GenerateOverwriteIdempotent(doc: seq<Section>, src: seq<Section>, url: string)
    requires Generate(doc, src, url, true).Success? && NoEndMarkerNames(src, url)
    ensures Generate(Generate(doc, src, url, true).value, src, url, true) == Generate(doc, src, url, true)
  {
    var base := RemoveRegistry(doc, url);
    GenerateValue(doc, src, url, true);
    var body := BodyFrom(Reserved(base, url), src, url, 0).value;
    var r := Generate(doc, src, url, true).value;
    BodyNoEndMarker(Reserved(base, url), src, url);
    AppendedBlockIsFound(base, body, url);
    assert RemoveRegistry(r, url) == base by {
      assert r[..|base|] + r[|r|..] == base;
    }
  }

  lemma PrependPrepend(a: seq<Section>, b: seq<Section>, r: Result<seq<Section>, RegistryError>)
    ensures Prepend(a, Prepend(b, r)) == Prepend(a + b, r)
  {
    if r.Success? {
      assert a + (b + r.value) == (a + b) + r.value;
    }
  }

  /** The loop of `generateNewRegistrySection` over the source's sections: each profile
      takes its own name when free and its renamed one otherwise, and a renamed name that
      is still taken stops the loop with an error. */
  method BuildBody(taken: set<string>, src: seq<Section>, url: string)
    returns (r: Result<seq<Section>, RegistryError>)
    ensures r == BodyFrom(taken, src, url, 0)
  {
    var given := taken;
    var body: seq<Section> := [];
    assert Prepend(body, BodyFrom(given, src, url, 0)) == BodyFrom(given, src, url, 0) by {
      var r0 := BodyFrom(given, src, url, 0);
      if r0.Success? {
        assert body + r0.value == r0.value;
      }
    }
    for i := 0 to |src|
      invariant BodyFrom(taken, src, url, 0) == Prepend(body, BodyFrom(given, src, url, i))
    {
      if src[i].name == DefaultSection {
        continue;
      }
      var name := src[i].name;
      if name in given {
        name := RenameForRegistry(name, url);
        if name in given {
          BodyTurn(given, src, url, i);
          return Failure(NameCollision(name));
        }
      }
      BodyTurn(given, src, url, i);
      PrependPrepend(body, [Section(name, src[i].keys)], BodyFrom(given + {name}, src, url, i + 1));
      body := body + [Section(name, src[i].keys)];
      given := given + {name};
    }
    assert body + [] == body;
    return Success(body);
  }

  /** `generateNewRegistrySection` on the loaded file: all-or-nothing, the file changes only
      once every name of the new block is settled. */
  method GenerateNewRegistrySection(f: File, src: seq<Section>, url: string, overwrite: bool)
    returns (err: Option<RegistryError>)
    modifies f
    ensures match Generate(old(f.sections), src, url, overwrite)
      case Success(doc) => err == None && f.sections == doc
      case Failure(e) => err == Some(e) && f.sections == old(f.sections)
    ensures old(f.Valid()) ==> f.Valid()
  {
    var base := if overwrite then RemoveRegistry(f.sections, url) else f.sections;
    var start, end := StartMarker(url), EndMarker(url);
    assert base == Base(f.sections, url, overwrite);
    if IndexOf(base, start).Some? || IndexOf(base, end).Some? {
      return Some(DuplicateRegistry(url));
    }
    var body := BuildBody(Reserved(base, url), src, url);
    if body.Failure? {
      return Some(body.error);
    }
    GenerateValue(f.sections, src, url, overwrite);
    f.sections := base + [Section(start, [])] + body.value + [Section(end, [])];
    err := None;
    if old(f.Valid()) {
      GenerateUnique(old(f.sections), src, url, overwrite);
    }
  }
}
