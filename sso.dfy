/** The in-memory part of `granted sso generate` / `granted sso populate`: checking the
    command's options and merging the SSO profiles found for a start URL into the loaded
    AWS config file, one `[profile <prefix><account>/<role>]` section per profile. */
module Sso {

  import opened Wrappers
  import opened Strings
  import opened Ini

  /** One account/role pair reachable through an SSO start URL (`SSOProfile`). */
  datatype SsoProfile = SsoProfile(
    startUrl: string,
    ssoRegion: string,
    accountId: string,
    accountName: string,
    roleName: string)

  /** The validated options (`SSOCommonOptions`). */
  datatype CommonOptions = CommonOptions(prefix: string, startUrl: string, ssoRegion: string)

  datatype CliError =
    | InvalidPrefix                  // the prefix has a character outside [A-Za-z0-9_-]
    | RegionError(message: string)   // the region could not be expanded
    | MissingStartUrl                // not exactly one positional argument

  /** A character of the class `[A-Za-z0-9_-]`. */
  predicate IsPrefixChar(c: char) {
    ('A' <= c <= 'Z') || ('a' <= c <= 'z') || ('0' <= c <= '9') || c == '_' || c == '-'
  }

  /** Whether `s` matches `^[A-Za-z0-9_-]*$`, scanning it from the left. */
  function MatchesPrefixPattern(s: string): bool {
    s == [] || (IsPrefixChar(s[0]) && MatchesPrefixPattern(s[1..]))
  }

  /** The scan accepts exactly the strings made of prefix characters only; in particular
      the empty prefix is accepted. */
  lemma {:induction false} PrefixPatternIsCharClass(s: string)
    ensures MatchesPrefixPattern(s) <==> forall i :: 0 <= i < |s| ==> IsPrefixChar(s[i])
  {
    if s != [] {
      PrefixPatternIsCharClass(s[1..]);
      assert forall i :: 1 <= i < |s| ==> s[i] == s[1..][i - 1];
    }
  }

  /** `parseCliOptions`: the `--prefix` flag is checked first, then the `--region` flag,
      whose expansion is passed in as `region`, then the positional arguments. */
  function ParseCliOptions(prefix: string, region: Result<string, string>, args: seq<string>): (r: Result<CommonOptions, CliError>)
    ensures r.Success? <==>
      (forall i :: 0 <= i < |prefix| ==> IsPrefixChar(prefix[i])) && region.Success? && |args| == 1
    ensures r.Success? ==> r.value == CommonOptions(prefix, args[0], region.value)
    ensures (exists i :: 0 <= i < |prefix| && !IsPrefixChar(prefix[i])) ==> r == Failure(InvalidPrefix)
    ensures (forall i :: 0 <= i < |prefix| ==> IsPrefixChar(prefix[i])) && region.Failure? ==>
      r == Failure(RegionError(region.error))
    ensures (forall i :: 0 <= i < |prefix| ==> IsPrefixChar(prefix[i])) && region.Success? && |args| != 1 ==>
      r == Failure(MissingStartUrl)
  {
    PrefixPatternIsCharClass(prefix);
    if !MatchesPrefixPattern(prefix) then Failure(InvalidPrefix)
    else if region.Failure? then Failure(RegionError(region.error))
    else if |args| != 1 then Failure(MissingStartUrl)
    else Success(CommonOptions(prefix, args[0], region.value))
  }

  /** `normalizeAccountName`: every space becomes '-'. */
  function NormalizeAccountName(name: string): (r: string)
    ensures |r| == |name| && ' ' !in r
    ensures forall i :: 0 <= i < |name| && name[i] != ' ' ==> r[i] == name[i]
    ensures forall i :: 0 <= i < |name| && name[i] == ' ' ==> r[i] == '-'
  {
    ReplaceChar(name, ' ', '-')
  }

  /** Normalising twice is normalising once. */
  lemma NormalizeIdempotent(name: string)
    ensures NormalizeAccountName(NormalizeAccountName(name)) == NormalizeAccountName(name)
  {
    ReplaceCharIdempotent(name, ' ', '-');
  }

  /** The section a profile is written to: `profile <prefix><account>/<role>`. */
  function SectionName(prefix: string, p: SsoProfile): (r: string)
    ensures HasPrefix(r, ProfileKeyword + prefix)
  {
    var r := ProfileKeyword + prefix + NormalizeAccountName(p.accountName) + "/" + p.roleName;
    assert r[..|ProfileKeyword + prefix|] == ProfileKeyword + prefix;
    r
  }

  /** The four keys written for a profile, in this order. */
  function ProfileKeys(p: SsoProfile): seq<Key> {
    [Key("sso_start_url", p.startUrl), Key("sso_region", p.ssoRegion),
     Key("sso_account_id", p.accountId), Key("sso_role_name", p.roleName)]
  }

  /** The four tag names differ, so reflecting a profile onto a new section writes
      exactly its four keys. */
  lemma ReflectIntoEmpty(p: SsoProfile)
    ensures UniqueKeys(ProfileKeys(p))
    ensures SetKeys([], ProfileKeys(p)) == ProfileKeys(p)
  {
    assert "sso_start_url"[4] != "sso_region"[4];
    assert "sso_start_url"[4] != "sso_account_id"[4];
    assert "sso_region"[4] != "sso_account_id"[4];
    assert "sso_start_url"[5] != "sso_role_name"[5];
    assert "sso_region"[5] != "sso_role_name"[5];
    assert "sso_account_id"[4] != "sso_role_name"[4];
    SetKeysAppends([], ProfileKeys(p));
  }

  /** One profile merged into the document: every section of its name is deleted and a new
      one holding its four keys is appended. */
  function MergeOne(doc: seq<Section>, prefix: string, p: SsoProfile): seq<Section> {
    Replace(doc, ProfileSection(prefix, p))
  }

  /** The section written for a profile. */
  function ProfileSection(prefix: string, p: SsoProfile): Section {
    Section(SectionName(prefix, p), ProfileKeys(p))
  }

  /** `doc` with every section called like `s` deleted and `s` appended. */
  function Replace(doc: seq<Section>, s: Section): seq<Section> {
    Without(doc, s.name) + [s]
  }

  /** The document after merging the first `n` profiles, in list order. */
  function MergedUpTo(doc: seq<Section>, prefix: string, ps: seq<SsoProfile>, n: nat): seq<Section>
    requires n <= |ps|
  {
    if n == 0 then doc else MergeOne(MergedUpTo(doc, prefix, ps, n - 1), prefix, ps[n - 1])
  }

  lemma MergedStep(doc: seq<Section>, prefix: string, ps: seq<SsoProfile>, n: nat)
    requires 0 < n <= |ps|
    ensures MergedUpTo(doc, prefix, ps, n) == Replace(MergedUpTo(doc, prefix, ps, n - 1), ProfileSection(prefix, ps[n - 1]))
  {
  }

  function Merged(doc: seq<Section>, prefix: string, ps: seq<SsoProfile>): seq<Section> {
    MergedUpTo(doc, prefix, ps, |ps|)
  }

  /** How many sections are called `name`. */
  function CountNamed(doc: seq<Section>, name: string): nat {
    if doc == [] then 0 else (if doc[0].name == name then 1 else 0) + CountNamed(doc[1..], name)
  }

  lemma {:induction false} CountAppend(a: seq<Section>, b: seq<Section>, name: string)
    ensures CountNamed(a + b, name) == CountNamed(a, name) + CountNamed(b, name)
  {
    if a != [] {
      assert (a + b)[1..] == a[1..] + b;
      CountAppend(a[1..], b, name);
    } else {
      assert a + b == b;
    }
  }

  /** Deleting the sections called `m` leaves none of them and every other name's count. */
  lemma {:induction false} CountWithout(doc: seq<Section>, m: string, name: string)
    ensures CountNamed(Without(doc, m), name) == if m == name then 0 else CountNamed(doc, name)
  {
    if doc != [] {
      CountWithout(doc[1..], m, name);
      if doc[0].name != m {
        assert Without(doc, m) == [doc[0]] + Without(doc[1..], m);
        CountAppend([doc[0]], Without(doc[1..], m), name);
      }
    }
  }

  /** After a replacement its name occurs exactly once; other names keep their count. */
  lemma ReplaceCount(doc: seq<Section>, r: seq<Section>, s: Section, name: string)
    requires r == Replace(doc, s)
    ensures CountNamed(r, name) == if name == s.name then 1 else CountNamed(doc, name)
  {
    CountWithout(doc, s.name, name);
    CountAppend(Without(doc, s.name), [s], name);
  }

  /** A replacement keeps every section of another name. */
  lemma ReplaceKeeps(doc: seq<Section>, r: seq<Section>, s: Section, t: Section)
    requires r == Replace(doc, s) && t in doc && t.name != s.name
    ensures t in r
  {
    WithoutKeeps(doc, s.name);
  }

  /** A replacement keeps names unique. */
  lemma ReplaceUnique(doc: seq<Section>, r: seq<Section>, s: Section)
    requires r == Replace(doc, s)
    requires UniqueNames(doc)
    ensures UniqueNames(r)
  {
    WithoutUnique(doc, s.name);
    UniqueAppend(Without(doc, s.name), [s]);
  }

  /** Every profile's section occurs exactly once in the merged file, whatever the file
      held before and however many profiles share the name. */
  lemma {:induction false} MergedOnce(doc: seq<Section>, prefix: string, ps: seq<SsoProfile>, n: nat, k: nat)
    requires k < n <= |ps|
    ensures CountNamed(MergedUpTo(doc, prefix, ps, n), SectionName(prefix, ps[k])) == 1
    decreases n
  {
    MergedStep(doc, prefix, ps, n);
    ReplaceCount(MergedUpTo(doc, prefix, ps, n - 1), MergedUpTo(doc, prefix, ps, n), ProfileSection(prefix, ps[n - 1]),
      SectionName(prefix, ps[k]));
    if k < n - 1 {
      MergedOnce(doc, prefix, ps, n - 1, k);
    }
  }

  /** The last profile of a given section name wins: its section holds its four keys. */
  lemma {:induction false} MergedLastWins(doc: seq<Section>, prefix: string, ps: seq<SsoProfile>, n: nat, k: nat)
    requires k < n <= |ps|
    requires forall j :: k < j < n ==> SectionName(prefix, ps[j]) != SectionName(prefix, ps[k])
    ensures ProfileSection(prefix, ps[k]) in MergedUpTo(doc, prefix, ps, n)
    decreases n
  {
    if k < n - 1 {
      MergedLastWins(doc, prefix, ps, n - 1, k);
      MergedStep(doc, prefix, ps, n);
      ReplaceKeeps(MergedUpTo(doc, prefix, ps, n - 1), MergedUpTo(doc, prefix, ps, n), ProfileSection(prefix, ps[n - 1]),
        ProfileSection(prefix, ps[k]));
    }
  }

  /** The sections whose names are not in `names`, in order. */
  function Outside(doc: seq<Section>, names: set<string>): seq<Section> {
    if doc == [] then []
    else (if doc[0].name in names then [] else [doc[0]]) + Outside(doc[1..], names)
  }

  lemma {:induction false} OutsideAppend(a: seq<Section>, b: seq<Section>, names: set<string>)
    ensures Outside(a + b, names) == Outside(a, names) + Outside(b, names)
  {
    if a != [] {
      assert (a + b)[1..] == a[1..] + b;
      OutsideAppend(a[1..], b, names);
    } else {
      assert a + b == b;
    }
  }

  lemma {:induction false} OutsideWithout(doc: seq<Section>, m: string, names: set<string>)
    requires m in names
    ensures Outside(Without(doc, m), names) == Outside(doc, names)
  {
    if doc != [] {
      OutsideWithout(doc[1..], m, names);
      if doc[0].name != m {
        assert Without(doc, m) == [doc[0]] + Without(doc[1..], m);
        OutsideAppend([doc[0]], Without(doc[1..], m), names);
      }
    }
  }

  /** A replacement whose name is in `names` leaves the rest as it was. */
  lemma ReplaceOutside(doc: seq<Section>, r: seq<Section>, s: Section, names: set<string>)
    requires r == Replace(doc, s) && s.name in names
    ensures Outside(r, names) == Outside(doc, names)
  {
    OutsideWithout(doc, s.name, names);
    OutsideAppend(Without(doc, s.name), [s], names);
    assert Outside([s], names) == [];
  }

  /** Sections whose names no profile produces are kept, with their keys and in their
      order. */
  lemma {:induction false} MergedKeepsOthers(doc: seq<Section>, prefix: string, ps: seq<SsoProfile>, n: nat, names: set<string>)
    requires n <= |ps|
    requires forall k :: 0 <= k < n ==> SectionName(prefix, ps[k]) in names
    ensures Outside(MergedUpTo(doc, prefix, ps, n), names) == Outside(doc, names)
    decreases n
  {
    if n > 0 {
      MergedKeepsOthers(doc, prefix, ps, n - 1, names);
      MergedStep(doc, prefix, ps, n);
      ReplaceOutside(MergedUpTo(doc, prefix, ps, n - 1), MergedUpTo(doc, prefix, ps, n), ProfileSection(prefix, ps[n - 1]), names);
    }
  }

  /** Merging keeps section names unique. */
  lemma {:induction false} MergedUnique(doc: seq<Section>, prefix: string, ps: seq<SsoProfile>, n: nat)
    requires n <= |ps|
    requires UniqueNames(doc)
    ensures UniqueNames(MergedUpTo(doc, prefix, ps, n))
    decreases n
  {
    if n > 0 {
      MergedUnique(doc, prefix, ps, n - 1);
      MergedStep(doc, prefix, ps, n);
      ReplaceUnique(MergedUpTo(doc, prefix, ps, n - 1), MergedUpTo(doc, prefix, ps, n), ProfileSection(prefix, ps[n - 1]));
    }
  }

  lemma ReplaceLast(w: seq<Section>, s: Section, t: Section)
    ensures (w + [s])[|w| := t] == w + [t]
  {
    assert (w + [s])[|w| := t] == w + [t];
  }

  /** One iteration of `mergeSSOProfiles`: delete the sections of the profile's name,
      create the section anew and reflect the four keys onto it. */
  method MergeProfile(f: File, prefix: string, p: SsoProfile)
    modifies f
    ensures f.sections == MergeOne(old(f.sections), prefix, p)
    ensures old(f.Valid()) ==> f.Valid()
  {
    var name := SectionName(prefix, p);
    f.DeleteSection(name);
    ghost var w := f.sections;
    var r := f.NewSection(name);
    assert r == Success(|w|);
    ReflectIntoEmpty(p);
    f.ReflectFrom(r.value, ProfileKeys(p));
    ReplaceLast(w, Section(name, []), Section(name, ProfileKeys(p)));
  }

  /** `mergeSSOProfiles`: the profiles are merged one after another, in list order. */
  method MergeSSOProfiles(f: File, prefix: string, ps: seq<SsoProfile>)
    modifies f
    ensures f.sections == Merged(old(f.sections), prefix, ps)
    ensures old(f.Valid()) ==> f.Valid()
  {
    for i := 0 to |ps|
      invariant f.sections == MergedUpTo(old(f.sections), prefix, ps, i)
      invariant old(f.Valid()) ==> f.Valid()
    {
      MergeProfile(f, prefix, ps[i]);
    }
  }
}
