/** The scenarios of the registry tests, stated on the model. A configuration text is
    written as the list of its headers in file order; the keys are left empty because the
    scenarios compare section names only. */
module Fixtures {

  import opened Wrappers
  import opened Ini
  import opened Registry

  const Host := "github.com"
  const Owner := "octo"

  /** `https://github.com/octo/<repo>.git`. */
  function RepositoryUrl(repo: string): string { "https://" + Host + "/" + Owner + "/" + repo + ".git" }

  const RepoOne := RepositoryUrl("repo_one")
  const RepoTwo := RepositoryUrl("repo_two")
  const RepoOneConfig := RepoOne + "/" + "config.yml"

  /** `profile <rest>`. */
  function Profile(rest: string): string { ProfileKeyword + rest }

  /** A profile section is a user section. */
  lemma ProfileIsUser(rest: string, keys: seq<Key>)
    ensures IsUserSection(Section(Profile(rest), keys))
    ensures !IsStartMarker(Profile(rest)) && !IsEndMarker(Profile(rest))
  {
    assert Profile(rest)[0] == 'p';
    assert StartPrefix[0] == 'g' && EndPrefix[0] == 'g' && DefaultSection[0] == 'D';
  }

  lemma RepoIdsDiffer()
    ensures RepoOne != RepoTwo
  {
    var prefix := "https://" + Host + "/" + Owner + "/";
    assert RepoOne == prefix + "repo_one" + ".git" && RepoTwo == prefix + "repo_two" + ".git";
    assert RepoOne[|prefix| + 5] == 'o' && RepoTwo[|prefix| + 5] == 't';
  }

  /** The shape of `ConfigWithGeneratedSections` once loaded: DEFAULT, two profiles, the
      five sections of the block of `one`, the five of the block of `two`, two profiles;
      the second block's repeated `profile duplicate` header has been merged into the
      first block's section by the loader. */
  predicate FixtureShape(doc: seq<Section>, one: string, two: string) {
    && |doc| == 15
    && doc[0].name == DefaultSection
    && doc[3].name == StartMarker(one) && doc[7].name == EndMarker(one)
    && doc[8].name == StartMarker(two) && doc[12].name == EndMarker(two)
    && Plain(doc[1]) && Plain(doc[2])
    && Plain(doc[4]) && Plain(doc[5]) && Plain(doc[6])
    && Plain(doc[9]) && Plain(doc[10]) && Plain(doc[11])
    && Plain(doc[13]) && Plain(doc[14])
  }

  /** A user section whose name is no marker. */
  predicate Plain(s: Section) {
    IsUserSection(s) && !IsStartMarker(s.name) && !IsEndMarker(s.name)
  }

  /** A section with no keys. */
  function Header(name: string): Section { Section(name, []) }

  /** `ConfigWithGeneratedSections` once loaded. */
  function LoadedWithGenerated(): seq<Section> {
    [Header(DefaultSection), Header(Profile("before.1")), Header(Profile("before.2")),
     Header(StartMarker(RepoOne)), Header(Profile("s1.one")), Header(Profile("s1.two")),
     Header(Profile("duplicate")), Header(EndMarker(RepoOne)),
     Header(StartMarker(RepoTwo)), Header(Profile("s2.one")), Header(Profile("s2.two")),
     Header(Profile("s3.three")), Header(EndMarker(RepoTwo)),
     Header(Profile("after.1")), Header(Profile("after.2"))]
  }

  /** `configWithoutGeneratedSections` once loaded. */
  function LoadedWithoutGenerated(): seq<Section> {
    [Header(DefaultSection), Header(Profile("one")), Header(Profile("two")), Header(Profile("three"))]
  }

  /** The headers of `ConfigWithGeneratedSections` in file order: the second block opens
      with a second `profile duplicate` header. */
  function RawWithGenerated(): seq<Section> {
    [Header(Profile("before.1")), Header(Profile("before.2")),
     Header(StartMarker(RepoOne)), Header(Profile("s1.one")), Header(Profile("s1.two")),
     Header(Profile("duplicate")), Header(EndMarker(RepoOne)),
     Header(StartMarker(RepoTwo)), Header(Profile("duplicate")), Header(Profile("s2.one")),
     Header(Profile("s2.two")), Header(Profile("s3.three")), Header(EndMarker(RepoTwo)),
     Header(Profile("after.1")), Header(Profile("after.2"))]
  }

  /** The headers of `configWithoutGeneratedSections` in file order. */
  function RawWithoutGenerated(): seq<Section> {
    [Header(Profile("one")), Header(Profile("two")), Header(Profile("three"))]
  }

  /** Two profile names are equal exactly when their names after the keyword are. */
  lemma ProfileInjective(a: string, b: string)
    ensures Profile(a) == Profile(b) <==> a == b
  {
    if Profile(a) == Profile(b) {
      assert a == Profile(a)[|ProfileKeyword|..];
    }
  }

  /** What a fixture section's name is made of: DEFAULT, a start or end marker of the
      `id`-th repository, or the `n`-th profile. */
  datatype Tag = Default | Start(id: nat) | End(id: nat) | Prof(n: nat)

  predicate TagFits(t: Tag, ids: seq<string>, names: seq<string>) {
    match t
    case Default => true
    case Start(id) => id < |ids|
    case End(id) => id < |ids|
    case Prof(n) => n < |names|
  }

  function TagName(t: Tag, ids: seq<string>, names: seq<string>): string
    requires TagFits(t, ids, names)
  {
    match t
    case Default => DefaultSection
    case Start(id) => StartMarker(ids[id])
    case End(id) => EndMarker(ids[id])
    case Prof(n) => Profile(names[n])
  }

  /** Distinct tags name distinct sections when the ids and the profile names are
      distinct. */
  lemma TagNameInjective(t: Tag, u: Tag, ids: seq<string>, names: seq<string>)
    requires TagFits(t, ids, names) && TagFits(u, ids, names)
    requires forall i, j :: 0 <= i < j < |ids| ==> ids[i] != ids[j]
    requires forall i, j :: 0 <= i < j < |names| ==> names[i] != names[j]
    ensures TagName(t, ids, names) == TagName(u, ids, names) ==> t == u
  {
    assert !IsMarker(DefaultSection) by {
      assert DefaultSection[0] == 'D' && StartPrefix[0] == 'g' && EndPrefix[0] == 'g';
    }
    match t
    case Default =>
      if u.Prof? { ProfileIsUser(names[u.n], []); }
      if u.Start? || u.End? { MarkerNames(ids[u.id], ids[u.id]); }
    case Start(a) =>
      if u.Prof? { ProfileIsUser(names[u.n], []); }
      if u.Start? || u.End? { MarkerNames(ids[a], ids[u.id]); }
    case End(a) =>
      if u.Prof? { ProfileIsUser(names[u.n], []); }
      if u.Start? || u.End? { MarkerNames(ids[a], ids[u.id]); MarkerNames(ids[u.id], ids[a]); }
    case Prof(a) =>
      ProfileIsUser(names[a], []);
      if u.Prof? { ProfileInjective(names[a], names[u.n]); }
      if u.Start? || u.End? { MarkerNames(ids[u.id], ids[u.id]); }
  }

  /** Sections named by distinct tags have unique names. */
  lemma TaggedUnique(doc: seq<Section>, tags: seq<Tag>, ids: seq<string>, names: seq<string>)
    requires |doc| == |tags|
    requires forall k :: 0 <= k < |tags| ==> TagFits(tags[k], ids, names) && doc[k].name == TagName(tags[k], ids, names)
    requires forall i, j :: 0 <= i < j < |tags| ==> tags[i] != tags[j]
    requires forall i, j :: 0 <= i < j < |ids| ==> ids[i] != ids[j]
    requires forall i, j :: 0 <= i < j < |names| ==> names[i] != names[j]
    ensures UniqueNames(doc)
  {
    forall i, j | 0 <= i < j < |doc| ensures doc[i].name != doc[j].name {
      TagNameInjective(tags[i], tags[j], ids, names);
    }
  }

  /** The ten profile names of the fixture after the keyword. */
  const ProfileNames := ["before.1", "before.2", "s1.one", "s1.two", "duplicate", "s2.one", "s2.two", "s3.three", "after.1", "after.2"]

  /** The tags of the loaded fixture's sections, in order. */
  const LoadedTags := [Default, Prof(0), Prof(1), Start(0), Prof(2), Prof(3), Prof(4), End(0),
                       Start(1), Prof(5), Prof(6), Prof(7), End(1), Prof(8), Prof(9)]

  /** Each section of the loaded fixture is named by its tag. */
  lemma LoadedTagged()
    ensures var L := LoadedWithGenerated();
      && |L| == |LoadedTags|
      && forall k :: 0 <= k < |L| ==>
           TagFits(LoadedTags[k], [RepoOne, RepoTwo], ProfileNames)
           && L[k].name == TagName(LoadedTags[k], [RepoOne, RepoTwo], ProfileNames)
  {
  }

  /** The profile names and the tags of the fixture are distinct. */
  lemma LoadedDistinct()
    ensures forall i, j :: 0 <= i < j < |ProfileNames| ==> ProfileNames[i] != ProfileNames[j]
    ensures forall i, j :: 0 <= i < j < |LoadedTags| ==> LoadedTags[i] != LoadedTags[j]
  {
  }

  /** No two sections of the loaded fixture share a name. */
  lemma LoadedUnique()
    ensures UniqueNames(LoadedWithGenerated())
  {
    RepoIdsDiffer();
    LoadedTagged();
    LoadedDistinct();
    TaggedUnique(LoadedWithGenerated(), LoadedTags, [RepoOne, RepoTwo], ProfileNames);
  }

  /** Loading the headers of a document with unique names and no keys, one of them
      repeated further down, gives the document back. */
  lemma LoadRepeated(L: seq<Section>, n: nat, d: nat)
    requires 0 < d < n <= |L| && L[0] == Section(DefaultSection, [])
    requires UniqueNames(L) && forall k :: 0 <= k < |L| ==> L[k].keys == []
    ensures Load(L[1..n] + [L[d]] + L[n..]) == L
  {
    var D, a, b := [L[0]], L[1..n], L[n..];
    LoadPrefix(L, n);
    LoadIntoAppend(D, a, [L[d]]);
    assert LoadInto(D, a + [L[d]]) == L[..n] by {
      LoadIntoRepeat(L[..n], d);
    }
    LoadIntoAppend(D, a + [L[d]], b);
    LoadSuffix(L, n);
  }

  /** The first `n` headers load to the first `n` sections. */
  lemma LoadPrefix(L: seq<Section>, n: nat)
    requires 0 < n <= |L| && UniqueNames(L) && forall k :: 0 <= k < |L| ==> L[k].keys == []
    ensures UniqueNames(L[..n]) && LoadInto([L[0]], L[1..n]) == L[..n]
  {
    assert [L[0]] + L[1..n] == L[..n];
    assert forall k :: 0 <= k < n ==> L[..n][k] == L[k];
    LoadIntoFresh([L[0]], L[1..n]);
  }

  /** The remaining headers are appended to the first `n` sections. */
  lemma LoadSuffix(L: seq<Section>, n: nat)
    requires 0 < n <= |L| && UniqueNames(L) && UniqueNames(L[..n])
    requires forall k :: 0 <= k < |L| ==> L[k].keys == []
    ensures LoadInto(L[..n], L[n..]) == L
  {
    assert L[..n] + L[n..] == L;
    LoadIntoFresh(L[..n], L[n..]);
  }

  /** The headers in file order are the loaded sections with the second block's
      `profile duplicate` header put back. */
  lemma RawIsLoadedWithRepeat()
    ensures var L := LoadedWithGenerated(); RawWithGenerated() == L[1..9] + [L[6]] + L[9..]
  {
  }

  /** `ini.Load` on the headers of `ConfigWithGeneratedSections` yields the document the
      scenarios start from: the repeated `profile duplicate` header is merged into the
      section of its first occurrence. */
  lemma LoadWithGenerated()
    ensures Load(RawWithGenerated()) == LoadedWithGenerated()
  {
    LoadedUnique();
    RawIsLoadedWithRepeat();
    LoadRepeated(LoadedWithGenerated(), 9, 6);
  }

  /** `ini.Load` on the headers of `configWithoutGeneratedSections`. */
  lemma LoadWithoutGenerated()
    ensures Load(RawWithoutGenerated()) == LoadedWithoutGenerated()
  {
    var L := LoadedWithoutGenerated();
    ProfileInjective("one", "two");
    ProfileInjective("one", "three");
    ProfileInjective("two", "three");
    assert Profile("one")[0] == 'p' && DefaultSection[0] == 'D';
    assert Profile("two")[0] == 'p' && Profile("three")[0] == 'p';
    assert [L[0]] + RawWithoutGenerated() == L;
    LoadIntoFresh([L[0]], RawWithoutGenerated());
  }

  lemma LoadedWithGeneratedShape()
    ensures FixtureShape(LoadedWithGenerated(), RepoOne, RepoTwo)
  {
    ProfileIsUser("before.1", []);
    ProfileIsUser("before.2", []);
    ProfileIsUser("s1.one", []);
    ProfileIsUser("s1.two", []);
    ProfileIsUser("duplicate", []);
    ProfileIsUser("s2.one", []);
    ProfileIsUser("s2.two", []);
    ProfileIsUser("s3.three", []);
    ProfileIsUser("after.1", []);
    ProfileIsUser("after.2", []);
  }

  /** A section that is no start marker opens no block. */
  lemma NoBlockAt(doc: seq<Section>, i: nat)
    requires i < |doc| && !IsStartMarker(doc[i].name)
    ensures BlockEnd(doc, i).None?
  {
  }

  /** A start marker of `url` whose nearest end marker of `url` is at `j` opens a block
      ending at `j`. */
  lemma BlockAt(doc: seq<Section>, i: nat, j: nat, url: string)
    requires i < j < |doc| && doc[i].name == StartMarker(url) && doc[j].name == EndMarker(url)
    requires forall k :: i < k < j ==> doc[k].name != EndMarker(url)
    ensures BlockEnd(doc, i) == Some(j)
  {
    MarkerNames(url, url);
    NextNamedNearest(doc, EndMarker(url), i + 1);
  }

  /** Where the blocks of a document of the fixture's shape are. */
  lemma FixtureBlocks(doc: seq<Section>, one: string, two: string)
    requires FixtureShape(doc, one, two)
    ensures BlockEnd(doc, 3) == Some(7) && BlockEnd(doc, 8) == Some(12)
    ensures forall k :: k in {0, 1, 2, 13, 14} ==> BlockEnd(doc, k).None?
  {
    assert !IsStartMarker(doc[0].name) by {
      assert DefaultSection[0] == 'D' && StartPrefix[0] == 'g';
    }
    MarkerNames(one, one);
    MarkerNames(two, two);
    BlockAt(doc, 3, 7, one);
    BlockAt(doc, 8, 12, two);
    NoBlockAt(doc, 0);
    NoBlockAt(doc, 1);
    NoBlockAt(doc, 2);
    NoBlockAt(doc, 13);
    NoBlockAt(doc, 14);
  }

  /** The generated query on the fixture's shape: both blocks, ten sections. */
  lemma FixtureGenerated(doc: seq<Section>, one: string, two: string)
    requires FixtureShape(doc, one, two)
    ensures GrantedGeneratedSections(doc) == doc[3..13]
  {
    FixtureBlocks(doc, one, two);
    ScanOutside(doc, 14);
    ScanOutside(doc, 13);
    ScanBlock(doc, 8, 12);
    ScanBlock(doc, 3, 7);
    ScanOutside(doc, 2);
    ScanOutside(doc, 1);
    ScanOutside(doc, 0);
    assert doc[3..8] + doc[8..13] == doc[3..13];
  }

  /** The removal on the fixture's shape keeps DEFAULT and the four outer profiles. */
  lemma FixtureKept(doc: seq<Section>, one: string, two: string)
    requires FixtureShape(doc, one, two)
    ensures WithoutGenerated(doc) == [doc[0], doc[1], doc[2], doc[13], doc[14]]
  {
    FixtureBlocks(doc, one, two);
    ScanOutside(doc, 14);
    ScanOutside(doc, 13);
    ScanBlock(doc, 8, 12);
    ScanBlock(doc, 3, 7);
    ScanOutside(doc, 2);
    ScanOutside(doc, 1);
    ScanOutside(doc, 0);
  }

  /** The non-granted query on the fixture's shape: the four outer profiles. */
  lemma FixtureNonGranted(doc: seq<Section>, one: string, two: string)
    requires FixtureShape(doc, one, two)
    ensures NonGrantedProfiles(doc) == [doc[1], doc[2], doc[13], doc[14]]
  {
    FixtureKept(doc, one, two);
    NonGrantedAreUserSections(doc);
    assert !IsUserSection(doc[0]);
    UserSectionsOfFive(doc[0], doc[1], doc[2], doc[13], doc[14]);
  }

  lemma UserSectionsOfFive(a: Section, b: Section, c: Section, d: Section, e: Section)
    requires !IsUserSection(a) && IsUserSection(b) && IsUserSection(c) && IsUserSection(d) && IsUserSection(e)
    ensures UserSections([a, b, c, d, e]) == [b, c, d, e]
  {
    UserSectionsCons(e, []);
    UserSectionsCons(d, [e]);
    UserSectionsCons(c, [d, e]);
    UserSectionsCons(b, [c, d, e]);
    UserSectionsCons(a, [b, c, d, e]);
  }

  /** The by-URL query on the fixture's shape finds the five sections of the second
      block: the scan steps over DEFAULT, the two profiles and the first block, whose
      identifier differs. */
  lemma FixtureByURL(doc: seq<Section>, one: string, two: string)
    requires FixtureShape(doc, one, two) && one != two
    ensures GeneratedSectionByRegistryURL(doc, two) == doc[8..13]
  {
    FixtureBlocks(doc, one, two);
    MarkerNames(one, two);
    assert BlockFrom(doc, two, 8) == Some((8, 12));
    assert BlockFrom(doc, two, 3) == BlockFrom(doc, two, 8);
    assert BlockFrom(doc, two, 2) == BlockFrom(doc, two, 3);
    assert BlockFrom(doc, two, 1) == BlockFrom(doc, two, 2);
    assert BlockFrom(doc, two, 0) == BlockFrom(doc, two, 1);
  }

  /** A plain section bears no marker name. */
  lemma PlainNotMarker(s: Section, url: string)
    requires Plain(s)
    ensures s.name != StartMarker(url) && s.name != EndMarker(url)
  {
    MarkerNames(url, url);
  }

  lemma NamesOfFour(a: Section, b: Section, c: Section, d: Section)
    ensures Names([a, b, c, d]) == [a.name, b.name, c.name, d.name]
  {
  }

  lemma NamesOfFive(a: Section, b: Section, c: Section, d: Section, e: Section)
    ensures Names([a, b, c, d, e]) == [a.name, b.name, c.name, d.name, e.name]
  {
  }

  lemma NamesOfThree(a: Section, b: Section, c: Section)
    ensures Names([a, b, c]) == [a.name, b.name, c.name]
  {
  }

  /** The scenarios on `ConfigWithGeneratedSections`: the four outer profiles are the
      non-granted ones, the two blocks give ten generated sections, the block of
      `repo_two` has five, and after the removal nothing generated is left. */
  lemma WithGeneratedScenarios(doc: seq<Section>)
    requires doc == LoadedWithGenerated()
    ensures Names(NonGrantedProfiles(doc)) ==
      [Profile("before.1"), Profile("before.2"), Profile("after.1"), Profile("after.2")]
    ensures |GrantedGeneratedSections(doc)| == 10
    ensures |GeneratedSectionByRegistryURL(doc, RepoTwo)| == 5
    ensures GrantedGeneratedSections(WithoutGenerated(doc)) == []
    ensures Names(WithoutGenerated(doc)) ==
      [DefaultSection, Profile("before.1"), Profile("before.2"), Profile("after.1"), Profile("after.2")]
  {
    LoadedWithGeneratedShape();
    RepoIdsDiffer();
    FixtureGenerated(doc, RepoOne, RepoTwo);
    FixtureNonGranted(doc, RepoOne, RepoTwo);
    FixtureKept(doc, RepoOne, RepoTwo);
    FixtureByURL(doc, RepoOne, RepoTwo);
    RemovalIsComplete(doc);
    NamesOfFour(doc[1], doc[2], doc[13], doc[14]);
    NamesOfFive(doc[0], doc[1], doc[2], doc[13], doc[14]);
  }

  /** The shape of `configWithoutGeneratedSections` once loaded: DEFAULT and three
      profiles. */
  predicate PlainShape(doc: seq<Section>) {
    |doc| == 4 && doc[0].name == DefaultSection && Plain(doc[1]) && Plain(doc[2]) && Plain(doc[3])
  }

  lemma PlainScan(doc: seq<Section>)
    requires PlainShape(doc)
    ensures GrantedGeneratedSections(doc) == []
    ensures WithoutGenerated(doc) == doc
    ensures NonGrantedProfiles(doc) == doc[1..]
  {
    assert !IsStartMarker(doc[0].name) && !IsUserSection(doc[0]) by {
      assert DefaultSection[0] == 'D' && StartPrefix[0] == 'g';
    }
    NoBlockAt(doc, 0);
    NoBlockAt(doc, 1);
    NoBlockAt(doc, 2);
    NoBlockAt(doc, 3);
    ScanOutside(doc, 3);
    ScanOutside(doc, 2);
    ScanOutside(doc, 1);
    ScanOutside(doc, 0);
    assert doc == [doc[0], doc[1], doc[2], doc[3]];
    NonGrantedAreUserSections(doc);
    UserSectionsCons(doc[3], []);
    UserSectionsCons(doc[2], [doc[3]]);
    UserSectionsCons(doc[1], [doc[2], doc[3]]);
    UserSectionsCons(doc[0], [doc[1], doc[2], doc[3]]);
    assert doc[1..] == [doc[1], doc[2], doc[3]];
  }

  /** No registry has a block in a document of plain sections. */
  lemma PlainByURL(doc: seq<Section>, url: string)
    requires PlainShape(doc)
    ensures GeneratedSectionByRegistryURL(doc, url) == []
  {
    assert doc[0].name != StartMarker(url) by {
      assert DefaultSection[0] == 'D' && StartMarker(url)[0] == 'g';
    }
    PlainNotMarker(doc[1], url);
    PlainNotMarker(doc[2], url);
    PlainNotMarker(doc[3], url);
  }

  /** The scenarios on `configWithoutGeneratedSections`: every profile is non-granted, in
      order, and nothing is generated, for any identifier. */
  lemma WithoutGeneratedScenarios(doc: seq<Section>, url: string)
    requires doc == LoadedWithoutGenerated()
    ensures Names(NonGrantedProfiles(doc)) == [Profile("one"), Profile("two"), Profile("three")]
    ensures GrantedGeneratedSections(doc) == []
    ensures GeneratedSectionByRegistryURL(doc, url) == []
    ensures WithoutGenerated(doc) == doc
  {
    ProfileIsUser("one", []);
    ProfileIsUser("two", []);
    ProfileIsUser("three", []);
    PlainScan(doc);
    PlainByURL(doc, url);
    assert doc[1..] == [doc[1], doc[2], doc[3]];
    NamesOfThree(doc[1], doc[2], doc[3]);
  }
}
