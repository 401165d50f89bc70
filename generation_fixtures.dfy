/** The generation scenarios of the registry tests: blocks appended one registry after
    another to a configuration that holds only DEFAULT, with the names the second block
    has to take when the first one already uses them. */
module GenerationFixtures {

  import opened Wrappers
  import opened Ini
  import opened Registry
  import opened Strings
  import opened Fixtures

  /** A registry's source file once loaded: DEFAULT, then three profiles. */
  function Source(a: string, b: string, c: string): seq<Section> {
    [Header(DefaultSection), Header(a), Header(b), Header(c)]
  }

  /** The block a registry adds: its markers around three profiles. */
  function Block(url: string, a: string, b: string, c: string): seq<Section> {
    [Header(StartMarker(url)), Header(a), Header(b), Header(c), Header(EndMarker(url))]
  }

  /** A profile name is neither DEFAULT nor a marker. */
  lemma ProfileIsNoMarker(rest: string, url: string)
    ensures Profile(rest) != DefaultSection
    ensures Profile(rest) != StartMarker(url) && Profile(rest) != EndMarker(url)
  {
    assert Profile(rest)[0] == 'p' && DefaultSection[0] == 'D';
    assert StartMarker(url)[0] == 'g' && EndMarker(url)[0] == 'g';
  }

  /** DEFAULT is no marker. */
  lemma DefaultIsNoMarker(url: string)
    ensures DefaultSection != StartMarker(url) && DefaultSection != EndMarker(url)
  {
    assert DefaultSection[0] == 'D' && StartMarker(url)[0] == 'g' && EndMarker(url)[0] == 'g';
  }

  /** The markers of two different registries are four different names. */
  lemma MarkersDiffer(one: string, two: string)
    requires one != two
    ensures StartMarker(one) != StartMarker(two) && EndMarker(one) != EndMarker(two)
    ensures StartMarker(one) != EndMarker(two) && EndMarker(one) != StartMarker(two)
    ensures StartMarker(one) != EndMarker(one)
  {
    MarkerNames(one, two);
    MarkerNames(two, one);
  }

  /** A colliding profile is renamed to `profile <namespace>.<rest>`. */
  lemma RenamedProfile(rest: string, url: string)
    ensures RenameForRegistry(Profile(rest), url) == Profile(RegistryNamespace(url) + "." + rest)
  {
    var name := Profile(rest);
    assert name[..|ProfileKeyword|] == ProfileKeyword && name[|ProfileKeyword|..] == rest;
    assert HasPrefix(name, ProfileKeyword);
  }

  /** The names of a six-section document. */
  lemma NamesOfSix(doc: seq<Section>)
    requires |doc| == 6
    ensures NamesOf(doc) == {doc[0].name, doc[1].name, doc[2].name, doc[3].name, doc[4].name, doc[5].name}
  {
    var want := {doc[0].name, doc[1].name, doc[2].name, doc[3].name, doc[4].name, doc[5].name};
    forall n | n in want ensures n in NamesOf(doc) {
      if n == doc[0].name { assert doc[0].name in NamesOf(doc); }
      else if n == doc[1].name { assert doc[1].name in NamesOf(doc); }
      else if n == doc[2].name { assert doc[2].name in NamesOf(doc); }
      else if n == doc[3].name { assert doc[3].name in NamesOf(doc); }
      else if n == doc[4].name { assert doc[4].name in NamesOf(doc); }
      else { assert doc[5].name in NamesOf(doc); }
    }
  }

  /** Generating a registry with three profiles: with no marker of `url` in `doc`, the
      block holds each profile under the name `BlockName` gives it against the names
      taken so far. */
  lemma GenerateThree(doc: seq<Section>, url: string, a: string, b: string, c: string,
                      a2: string, b2: string, c2: string)
    requires IndexOf(doc, StartMarker(url)).None? && IndexOf(doc, EndMarker(url)).None?
    requires a != DefaultSection && b != DefaultSection && c != DefaultSection
    requires a2 == BlockName(Reserved(doc, url), a, url) && a2 !in Reserved(doc, url)
    requires b2 == BlockName(Reserved(doc, url) + {a2}, b, url) && b2 !in Reserved(doc, url) + {a2}
    requires c2 == BlockName(Reserved(doc, url) + {a2} + {b2}, c, url)
    requires c2 !in Reserved(doc, url) + {a2} + {b2}
    ensures Generate(doc, Source(a, b, c), url, false) == Success(doc + Block(url, a2, b2, c2))
  {
    var t, src := Reserved(doc, url), Source(a, b, c);
    var body3, body2 := [Header(c2)] + [], [Header(b2)] + ([Header(c2)] + []);
    BodyCons(t + {a2} + {b2}, src, url, 3, c2, []);
    BodyCons(t + {a2}, src, url, 2, b2, body3);
    BodyCons(t, src, url, 1, a2, body2);
    assert BodyFrom(t, src, url, 0) == BodyFrom(t, src, url, 1);
    assert [Header(a2)] + body2 == [Header(a2), Header(b2), Header(c2)];
    GenerateWithBody(doc, src, url, [Header(a2), Header(b2), Header(c2)]);
    assert doc + [Header(StartMarker(url))] + [Header(a2), Header(b2), Header(c2)] + [Header(EndMarker(url))]
        == doc + Block(url, a2, b2, c2);
  }

  /** With no marker of `url` in `doc`, a block body computed without error is placed
      between the markers after `doc`. */
  lemma GenerateWithBody(doc: seq<Section>, src: seq<Section>, url: string, body: seq<Section>)
    requires IndexOf(doc, StartMarker(url)).None? && IndexOf(doc, EndMarker(url)).None?
    requires BodyFrom(Reserved(doc, url), src, url, 0) == Success(body)
    ensures Generate(doc, src, url, false)
         == Success(doc + [Header(StartMarker(url))] + body + [Header(EndMarker(url))])
  {
  }

  /** One step of the block body over a profile that gets the free name `name`. */
  lemma BodyCons(taken: set<string>, src: seq<Section>, url: string, i: nat, name: string,
                 rest: seq<Section>)
    requires i < |src| && src[i].name != DefaultSection && src[i].keys == []
    requires name == BlockName(taken, src[i].name, url) && name !in taken
    requires BodyFrom(taken + {name}, src, url, i + 1) == Success(rest)
    ensures BodyFrom(taken, src, url, i) == Success([Header(name)] + rest)
  {
  }

  /** A name that is no section name of a document is not found in it. */
  lemma Unnamed(doc: seq<Section>, n: string)
    requires n !in NamesOf(doc)
    ensures IndexOf(doc, n).None?
  {
  }

  /** A free name is kept. */
  lemma KeptName(taken: set<string>, name: string, url: string)
    requires name !in taken
    ensures BlockName(taken, name, url) == name
  {
  }

  /** A taken name is renamed. */
  lemma RenamedName(taken: set<string>, name: string, url: string)
    requires name in taken
    ensures BlockName(taken, name, url) == RenameForRegistry(name, url)
  {
  }

  /** The first registry added to a configuration holding only DEFAULT keeps its profiles'
      names. */
  lemma FirstRegistry(one: string, a: string, b: string, c: string)
    requires a != b && a != c && b != c
    ensures Generate([Header(DefaultSection)], Source(Profile(a), Profile(b), Profile(c)), one, false)
         == Success([Header(DefaultSection)] + Block(one, Profile(a), Profile(b), Profile(c)))
  {
    var doc := [Header(DefaultSection)];
    DefaultIsNoMarker(one);
    MarkerNames(one, one);
    ProfileIsNoMarker(a, one);
    ProfileIsNoMarker(b, one);
    ProfileIsNoMarker(c, one);
    ProfileInjective(a, b);
    ProfileInjective(a, c);
    ProfileInjective(b, c);
    assert NamesOf(doc) == {DefaultSection} by {
      assert doc[0].name in NamesOf(doc);
    }
    var t := Reserved(doc, one);
    assert t == {DefaultSection, StartMarker(one), EndMarker(one)};
    assert IndexOf(doc, StartMarker(one)).None? && IndexOf(doc, EndMarker(one)).None?;
    assert Profile(a) !in t && Profile(b) !in t + {Profile(a)} && Profile(c) !in t + {Profile(a)} + {Profile(b)};
    GenerateThree(doc, one, Profile(a), Profile(b), Profile(c), Profile(a), Profile(b), Profile(c));
  }

  /** A name that starts like a profile's. */
  predicate ProfileLike(n: string) {
    |n| > 0 && n[0] == 'p'
  }

  /** A profile-like name is neither DEFAULT nor a marker. */
  lemma ProfileLikeIsNoMarker(n: string, url: string)
    requires ProfileLike(n)
    ensures n != DefaultSection && n != StartMarker(url) && n != EndMarker(url)
  {
    assert DefaultSection[0] == 'D' && StartMarker(url)[0] == 'g' && EndMarker(url)[0] == 'g';
  }

  /** The names a second registry meets after a first one: the base holds DEFAULT and
      the block of `one` with `pa`, `pb`, `pd`, which are taken; profile names different
      from those, `px`, `py` and `pr`, are free. */
  lemma SecondBlockNames(doc: seq<Section>, one: string, two: string,
                         pa: string, pb: string, pd: string, px: string, py: string, pr: string)
    requires doc == [Header(DefaultSection)] + Block(one, pa, pb, pd) && one != two
    requires ProfileLike(pa) && ProfileLike(pb) && ProfileLike(pd)
    requires ProfileLike(px) && ProfileLike(py) && ProfileLike(pr)
    requires px != pa && px != pb && px != pd && py != pa && py != pb && py != pd
    requires pr != pa && pr != pb && pr != pd
    ensures IndexOf(doc, StartMarker(two)).None? && IndexOf(doc, EndMarker(two)).None?
    ensures px !in Reserved(doc, two) && py !in Reserved(doc, two) && pr !in Reserved(doc, two)
    ensures pa in Reserved(doc, two) && pb in Reserved(doc, two) && pd in Reserved(doc, two)
  {
    MarkersDiffer(one, two);
    DefaultIsNoMarker(two);
    ProfileLikeIsNoMarker(pa, two);
    ProfileLikeIsNoMarker(pb, two);
    ProfileLikeIsNoMarker(pd, two);
    ProfileLikeIsNoMarker(px, one);
    ProfileLikeIsNoMarker(px, two);
    ProfileLikeIsNoMarker(py, one);
    ProfileLikeIsNoMarker(py, two);
    ProfileLikeIsNoMarker(pr, one);
    ProfileLikeIsNoMarker(pr, two);
    NamesOfSix(doc);
    var names := {DefaultSection, StartMarker(one), pa, pb, pd, EndMarker(one)};
    assert NamesOf(doc) == names;
    assert StartMarker(two) !in names && EndMarker(two) !in names;
    Unnamed(doc, StartMarker(two));
    Unnamed(doc, EndMarker(two));
    var t := Reserved(doc, two);
    assert t == names + {StartMarker(two), EndMarker(two)};
    FreshInEight(px, DefaultSection, StartMarker(one), pa, pb, pd, EndMarker(one), StartMarker(two), EndMarker(two));
    FreshInEight(py, DefaultSection, StartMarker(one), pa, pb, pd, EndMarker(one), StartMarker(two), EndMarker(two));
    FreshInEight(pr, DefaultSection, StartMarker(one), pa, pb, pd, EndMarker(one), StartMarker(two), EndMarker(two));
  }

  /** A name different from each of eight is not among them. */
  lemma FreshInEight(n: string, e0: string, e1: string, e2: string, e3: string,
                     e4: string, e5: string, e6: string, e7: string)
    requires n != e0 && n != e1 && n != e2 && n != e3 && n != e4 && n != e5 && n != e6 && n != e7
    ensures n !in {e0, e1, e2, e3, e4, e5} + {e6, e7}
  {
  }

  /** The second block: `px` and `py` keep their names, `pd` is renamed to `pr`. */
  lemma SecondBlock(doc: seq<Section>, two: string, pd: string, px: string, py: string, pr: string)
    requires IndexOf(doc, StartMarker(two)).None? && IndexOf(doc, EndMarker(two)).None?
    requires px !in Reserved(doc, two) && py !in Reserved(doc, two) && pr !in Reserved(doc, two)
    requires pd in Reserved(doc, two) && pd != DefaultSection && px != DefaultSection && py != DefaultSection
    requires py != px && pr != px && pr != py && pr == RenameForRegistry(pd, two)
    ensures Generate(doc, Source(px, py, pd), two, false) == Success(doc + Block(two, px, py, pr))
  {
    var t := Reserved(doc, two);
    KeptName(t, px, two);
    KeptName(t + {px}, py, two);
    RenamedName(t + {px} + {py}, pd, two);
    GenerateThree(doc, two, px, py, pd, px, py, pr);
  }

  /** The test's first scenario on abstract names: after a first registry with profiles
      `a`, `b`, `dup`, a second registry with `x`, `y`, `dup` keeps `x` and `y` and renames
      its `dup` with its own namespace. */
  lemma SecondRegistryRenamesShared(one: string, two: string, a: string, b: string, dup: string,
                                    x: string, y: string)
    requires one != two
    requires |dup| >= |a| && |dup| >= |b| && |dup| >= |x| && |dup| >= |y|
    requires a != b && a != dup && b != dup
    requires x != y && x != dup && y != dup && x != a && x != b && y != a && y != b
    ensures var doc := [Header(DefaultSection)] + Block(one, Profile(a), Profile(b), Profile(dup));
      Generate(doc, Source(Profile(x), Profile(y), Profile(dup)), two, false)
        == Success(doc + Block(two, Profile(x), Profile(y), Profile(RegistryNamespace(two) + "." + dup)))
  {
    var doc := [Header(DefaultSection)] + Block(one, Profile(a), Profile(b), Profile(dup));
    var renamed := RegistryNamespace(two) + "." + dup;
    ProfileInjective(x, a);
    ProfileInjective(x, b);
    ProfileInjective(x, dup);
    ProfileInjective(y, a);
    ProfileInjective(y, b);
    ProfileInjective(y, dup);
    ProfileInjective(y, x);
    assert |Profile(renamed)| > |Profile(dup)| >= |Profile(a)|;
    assert |Profile(dup)| >= |Profile(b)| && |Profile(dup)| >= |Profile(x)| && |Profile(dup)| >= |Profile(y)|;
    ProfileIsNoMarker(x, two);
    ProfileIsNoMarker(y, two);
    ProfileIsNoMarker(dup, two);
    SecondBlockNames(doc, one, two, Profile(a), Profile(b), Profile(dup), Profile(x), Profile(y), Profile(renamed));
    RenamedProfile(dup, two);
    SecondBlock(doc, two, Profile(dup), Profile(x), Profile(y), Profile(renamed));
  }

  /** A block whose three profiles are all taken: each is renamed. */
  lemma RenamedBlock(doc: seq<Section>, url: string, pa: string, pb: string, pd: string,
                     ra: string, rb: string, rd: string)
    requires IndexOf(doc, StartMarker(url)).None? && IndexOf(doc, EndMarker(url)).None?
    requires pa in Reserved(doc, url) && pb in Reserved(doc, url) && pd in Reserved(doc, url)
    requires ra !in Reserved(doc, url) && rb !in Reserved(doc, url) && rd !in Reserved(doc, url)
    requires pa != DefaultSection && pb != DefaultSection && pd != DefaultSection
    requires rb != ra && rd != ra && rd != rb
    requires ra == RenameForRegistry(pa, url) && rb == RenameForRegistry(pb, url) && rd == RenameForRegistry(pd, url)
    ensures Generate(doc, Source(pa, pb, pd), url, false) == Success(doc + Block(url, ra, rb, rd))
  {
    var t := Reserved(doc, url);
    RenamedName(t, pa, url);
    RenamedName(t + {ra}, pb, url);
    RenamedName(t + {ra} + {rb}, pd, url);
    GenerateThree(doc, url, pa, pb, pd, ra, rb, rd);
  }

  /** The test's second scenario on abstract names: the same source added again under a
      second identifier has every profile renamed with that identifier's namespace. */
  lemma SameSourceTwice(one: string, two: string, a: string, b: string, c: string)
    requires one != two && a != b && a != c && b != c
    requires var n := |RegistryNamespace(two)|;
      |a| <= |b| + n && |a| <= |c| + n && |b| <= |a| + n && |b| <= |c| + n && |c| <= |a| + n && |c| <= |b| + n
    ensures var doc := [Header(DefaultSection)] + Block(one, Profile(a), Profile(b), Profile(c));
      var ns := RegistryNamespace(two);
      Generate(doc, Source(Profile(a), Profile(b), Profile(c)), two, false)
        == Success(doc + Block(two, Profile(ns + "." + a), Profile(ns + "." + b), Profile(ns + "." + c)))
  {
    var doc := [Header(DefaultSection)] + Block(one, Profile(a), Profile(b), Profile(c));
    var ns := RegistryNamespace(two);
    var ra, rb, rc := ns + "." + a, ns + "." + b, ns + "." + c;
    RenamedInjective(ns, a, b);
    RenamedInjective(ns, a, c);
    RenamedInjective(ns, b, c);
    ProfileInjective(ra, rb);
    ProfileInjective(ra, rc);
    ProfileInjective(rb, rc);
    assert |Profile(ra)| > |Profile(a)| && |Profile(ra)| > |Profile(b)| && |Profile(ra)| > |Profile(c)|;
    assert |Profile(rb)| > |Profile(a)| && |Profile(rb)| > |Profile(b)| && |Profile(rb)| > |Profile(c)|;
    assert |Profile(rc)| > |Profile(a)| && |Profile(rc)| > |Profile(b)| && |Profile(rc)| > |Profile(c)|;
    ProfileIsNoMarker(a, two);
    ProfileIsNoMarker(b, two);
    ProfileIsNoMarker(c, two);
    SecondBlockNames(doc, one, two, Profile(a), Profile(b), Profile(c), Profile(ra), Profile(rb), Profile(rc));
    RenamedProfile(a, two);
    RenamedProfile(b, two);
    RenamedProfile(c, two);
    RenamedBlock(doc, two, Profile(a), Profile(b), Profile(c), Profile(ra), Profile(rb), Profile(rc));
  }

  /** Names renamed into one namespace are equal only when the originals are. */
  lemma RenamedInjective(ns: string, x: string, y: string)
    ensures ns + "." + x == ns + "." + y <==> x == y
  {
    if ns + "." + x == ns + "." + y {
      assert x == (ns + "." + x)[|ns| + 1..];
    }
  }

  /** The namespace of the second repository is `repo_two`. */
  lemma RepoTwoNamespace(url: string)
    requires url == RepoTwo
    ensures RegistryNamespace(url) == "repo_two"
  {
    assert '/' !in Host && '/' !in Owner && '/' !in "repo_two";
    NamespaceOfRepository(Host, Owner, "repo_two");
  }

  /** The namespace of `config.yml` inside the first repository is `repo_one_config.yml`. */
  lemma RepoOneConfigNamespace(url: string)
    requires url == RepoOneConfig
    ensures RegistryNamespace(url) == "repo_one_config.yml"
  {
    assert '/' !in Host && '/' !in Owner && '/' !in "repo_one" && '/' !in "config.yml";
    NamespaceOfRepositoryFile(Host, Owner, "repo_one", "config.yml");
    JoinedTexts();
  }

  /** The texts the scenarios spell out, joined from their pieces. */
  lemma JoinedTexts()
    ensures "repo_one" + "_" + "config.yml" == "repo_one_config.yml"
    ensures "repo_two" + "." + "duplicate" == "repo_two.duplicate"
    ensures "repo_one_config.yml" + "." + "s1.one" == "repo_one_config.yml.s1.one"
    ensures "repo_one_config.yml" + "." + "s1.two" == "repo_one_config.yml.s1.two"
    ensures "repo_one_config.yml" + "." + "duplicate" == "repo_one_config.yml.duplicate"
  {
  }

  /** The test "two registry with duplicate profiles": starting from a configuration that
      holds only DEFAULT, the first repository's block keeps its names and the second
      repository's `profile duplicate` becomes `profile repo_two.duplicate`. */
  lemma TwoRegistriesScenario(one: string, two: string)
    requires one == RepoOne && two == RepoTwo
    ensures Load([]) == [Header(DefaultSection)]
    ensures var first := [Header(DefaultSection)] + Block(one, Profile("s1.one"), Profile("s1.two"), Profile("duplicate"));
      && Generate([Header(DefaultSection)], Source(Profile("s1.one"), Profile("s1.two"), Profile("duplicate")), one, false)
           == Success(first)
      && Generate(first, Source(Profile("s2.one"), Profile("s2.two"), Profile("duplicate")), two, false)
           == Success(first + Block(two, Profile("s2.one"), Profile("s2.two"), Profile("repo_two.duplicate")))
  {
    RepoIdsDiffer();
    FirstRegistry(one, "s1.one", "s1.two", "duplicate");
    SecondRegistryRenamesShared(one, two, "s1.one", "s1.two", "duplicate", "s2.one", "s2.two");
    RepoTwoNamespace(two);
    JoinedTexts();
  }

  /** The test "same registry added from multiple config.yml file": the first repository
      added again through its `config.yml` has all three profiles renamed with the
      namespace `repo_one_config.yml`. */
  lemma SameRepositoryTwiceScenario(one: string, three: string)
    requires one == RepoOne && three == RepoOneConfig
    ensures Load([]) == [Header(DefaultSection)]
    ensures var first := [Header(DefaultSection)] + Block(one, Profile("s1.one"), Profile("s1.two"), Profile("duplicate"));
      && Generate([Header(DefaultSection)], Source(Profile("s1.one"), Profile("s1.two"), Profile("duplicate")), one, false)
           == Success(first)
      && Generate(first, Source(Profile("s1.one"), Profile("s1.two"), Profile("duplicate")), three, false)
           == Success(first + Block(three, Profile("repo_one_config.yml.s1.one"), Profile("repo_one_config.yml.s1.two"),
                                    Profile("repo_one_config.yml.duplicate")))
  {
    assert one != three by { assert |one| != |three|; }
    FirstRegistry(one, "s1.one", "s1.two", "duplicate");
    RepoOneConfigNamespace(three);
    SameSourceTwice(one, three, "s1.one", "s1.two", "duplicate");
    JoinedTexts();
  }
}
