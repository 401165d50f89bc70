/** The in-memory configuration document of gopkg.in/ini.v1, as the registry
    synchronizer and the SSO merge use it, under the library's default load options:
    a section name occurs at most once, a repeated header reopens the earlier section,
    and a key set twice keeps its first position and takes the later value. */
module Ini {

  import opened Wrappers

  /** One `key = value` line. */
  datatype Key = Key(name: string, value: string)

  /** A `[name]` section with its keys in file order. */
  datatype Section = Section(name: string, keys: seq<Key>)

  datatype IniError = EmptySectionName

  /** The name of the section that holds the keys written before the first header. */
  const DefaultSection := "DEFAULT"

  /** The keyword that opens the name of a profile section of an AWS config file. */
  const ProfileKeyword := "profile "

  /** `File.SectionStrings()`: the section names in document order. */
  function Names(doc: seq<Section>): (r: seq<string>)
    ensures |r| == |doc| && forall i :: 0 <= i < |doc| ==> r[i] == doc[i].name
  {
    if doc == [] then [] else [doc[0].name] + Names(doc[1..])
  }

  predicate UniqueNames(doc: seq<Section>) {
    forall i, j :: 0 <= i < j < |doc| ==> doc[i].name != doc[j].name
  }

  /** Two documents with unique names and no name in common stay unique side by side. */
  lemma UniqueAppend(a: seq<Section>, b: seq<Section>)
    requires UniqueNames(a) && UniqueNames(b)
    requires forall i, j :: 0 <= i < |a| && 0 <= j < |b| ==> a[i].name != b[j].name
    ensures UniqueNames(a + b)
  {
    forall i, j | 0 <= i < j < |a + b| ensures (a + b)[i].name != (a + b)[j].name {
      if i < |a| && j >= |a| {
        assert (a + b)[j] == b[j - |a|];
      }
    }
  }

  /** Position of the first section called `name`. */
  function IndexOf(doc: seq<Section>, name: string): (r: Option<nat>)
    ensures r.Some? ==> r.value < |doc| && doc[r.value].name == name
    ensures r.Some? ==> forall k :: 0 <= k < r.value ==> doc[k].name != name
    ensures r.None? ==> forall k :: 0 <= k < |doc| ==> doc[k].name != name
  {
    if doc == [] then None
    else if doc[0].name == name then Some(0)
    else match IndexOf(doc[1..], name)
      case None => None
      case Some(k) => Some(k + 1)
  }

  /** Value of the first key called `name`. */
  function LookupKey(keys: seq<Key>, name: string): (r: Option<string>)
    ensures r.Some? <==> exists k :: 0 <= k < |keys| && keys[k].name == name
  {
    if keys == [] then None
    else if keys[0].name == name then Some(keys[0].value)
    else LookupKey(keys[1..], name)
  }

  /** `Section.NewKey(name, value)`: an existing key takes the new value in place, a new
      key goes to the end. */
  function SetKey(keys: seq<Key>, name: string, value: string): seq<Key> {
    if keys == [] then [Key(name, value)]
    else if keys[0].name == name then [Key(name, value)] + keys[1..]
    else [keys[0]] + SetKey(keys[1..], name, value)
  }

  /** After setting a key it reads back the new value, every other key reads as before,
      and the section grows only when the key is new. */
  lemma {:induction false} SetKeyLookup(keys: seq<Key>, name: string, value: string)
    ensures LookupKey(SetKey(keys, name, value), name) == Some(value)
    ensures forall n :: n != name ==> LookupKey(SetKey(keys, name, value), n) == LookupKey(keys, n)
    ensures |SetKey(keys, name, value)| == if LookupKey(keys, name).Some? then |keys| else |keys| + 1
  {
    if keys != [] && keys[0].name != name {
      SetKeyLookup(keys[1..], name, value);
      var r := SetKey(keys, name, value);
      assert r[1..] == SetKey(keys[1..], name, value);
    }
  }

  /** The keys of `more`, set one after another on `keys`. */
  function SetKeys(keys: seq<Key>, more: seq<Key>): seq<Key>
    decreases |more|
  {
    if more == [] then keys
    else SetKeys(SetKey(keys, more[0].name, more[0].value), more[1..])
  }

  /** A key is present after setting a list of keys exactly when it was present before or
      is one of the list. */
  lemma {:induction false} SetKeysLookup(keys: seq<Key>, more: seq<Key>, n: string)
    ensures LookupKey(SetKeys(keys, more), n).Some? <==> LookupKey(keys, n).Some? || LookupKey(more, n).Some?
    decreases |more|
  {
    if more != [] {
      SetKeyLookup(keys, more[0].name, more[0].value);
      SetKeysLookup(SetKey(keys, more[0].name, more[0].value), more[1..], n);
      assert LookupKey(more, n).Some? <==> more[0].name == n || LookupKey(more[1..], n).Some?;
    }
  }

  /** No two keys share a name. */
  predicate UniqueKeys(keys: seq<Key>) {
    forall i, j :: 0 <= i < j < |keys| ==> keys[i].name != keys[j].name
  }

  /** A key the section does not have yet goes to the end. */
  lemma {:induction false} SetKeyAppends(keys: seq<Key>, name: string, value: string)
    requires forall k :: 0 <= k < |keys| ==> keys[k].name != name
    ensures SetKey(keys, name, value) == keys + [Key(name, value)]
  {
    if keys != [] {
      SetKeyAppends(keys[1..], name, value);
      assert [keys[0]] + (keys[1..] + [Key(name, value)]) == keys + [Key(name, value)];
    }
  }

  /** Setting keys whose names are distinct and new appends them in order. */
  lemma {:induction false} SetKeysAppends(keys: seq<Key>, more: seq<Key>)
    requires UniqueKeys(more)
    requires forall i, j :: 0 <= i < |keys| && 0 <= j < |more| ==> keys[i].name != more[j].name
    ensures SetKeys(keys, more) == keys + more
    decreases |more|
  {
    if more != [] {
      SetKeyAppends(keys, more[0].name, more[0].value);
      var next := keys + [more[0]];
      forall i, j | 0 <= i < |next| && 0 <= j < |more[1..]| ensures next[i].name != more[1..][j].name {
        assert more[1..][j] == more[j + 1];
      }
      SetKeysAppends(next, more[1..]);
      assert next + more[1..] == keys + more;
    }
  }

  /** Setting one more key after a list of keys. */
  lemma {:induction false} SetKeysSnoc(keys: seq<Key>, more: seq<Key>, last: Key)
    ensures SetKeys(keys, more + [last]) == SetKey(SetKeys(keys, more), last.name, last.value)
    decreases |more|
  {
    if more == [] {
      assert SetKeys(SetKey(keys, last.name, last.value), []) == SetKey(keys, last.name, last.value);
    } else {
      assert (more + [last])[0] == more[0];
      assert (more + [last])[1..] == more[1..] + [last];
      SetKeysSnoc(SetKey(keys, more[0].name, more[0].value), more[1..], last);
    }
  }

  /** The sections of `doc` not called `name`, in order: what `File.DeleteSection(name)`
      leaves. */
  function Without(doc: seq<Section>, name: string): (r: seq<Section>)
    ensures forall k :: 0 <= k < |r| ==> r[k].name != name
  {
    if doc == [] then []
    else if doc[0].name == name then Without(doc[1..], name)
    else [doc[0]] + Without(doc[1..], name)
  }

  /** Deleting keeps exactly the sections of other names. */
  lemma {:induction false} WithoutKeeps(doc: seq<Section>, name: string)
    ensures forall s :: s in Without(doc, name) <==> s in doc && s.name != name
  {
    if doc != [] {
      WithoutKeeps(doc[1..], name);
      assert forall s :: s in doc <==> s == doc[0] || s in doc[1..];
    }
  }

  /** Deleting keeps the names unique. */
  lemma {:induction false} WithoutUnique(doc: seq<Section>, name: string)
    requires UniqueNames(doc)
    ensures UniqueNames(Without(doc, name))
  {
    if doc != [] {
      WithoutUnique(doc[1..], name);
      if doc[0].name != name {
        var rest := Without(doc[1..], name);
        WithoutKeeps(doc[1..], name);
        forall k | 0 <= k < |rest| ensures rest[k].name != doc[0].name {
          assert rest[k] in doc[1..];
        }
        UniqueAppend([doc[0]], rest);
      }
    }
  }

  /** One header of the text applied to the document being loaded: a name already present
      reopens that section, a new name adds a section at the end. */
  function AddSection(doc: seq<Section>, s: Section): (r: seq<Section>)
    requires UniqueNames(doc)
    ensures UniqueNames(r)
    ensures forall n :: n in Names(r) <==> n in Names(doc) || n == s.name
    ensures |doc| <= |r| && Names(r)[..|doc|] == Names(doc)
  {
    match IndexOf(doc, s.name)
    case Some(i) =>
      var r := doc[i := Section(s.name, SetKeys(doc[i].keys, s.keys))];
      assert Names(r) == Names(doc);
      r
    case None =>
      var r := doc + [Section(s.name, SetKeys([], s.keys))];
      assert Names(r) == Names(doc) + [s.name];
      r
  }

  function LoadInto(doc: seq<Section>, raw: seq<Section>): (r: seq<Section>)
    requires UniqueNames(doc)
    ensures UniqueNames(r)
    ensures forall n :: n in Names(r) <==> n in Names(doc) || n in Names(raw)
    ensures |doc| <= |r| && Names(r)[..|doc|] == Names(doc)
    decreases |raw|
  {
    if raw == [] then doc
    else
      var next := AddSection(doc, raw[0]);
      var r := LoadInto(next, raw[1..]);
      assert Names(r)[..|doc|] == Names(r)[..|next|][..|doc|];
      assert forall n :: n in Names(raw) <==> n == raw[0].name || n in Names(raw[1..]);
      r
  }

  /** The document `ini.Load` builds from `raw`, the headers of the text in order with the
      keys written under each: the DEFAULT section first, then each distinct name once, at
      the place of its first header. */
  function Load(raw: seq<Section>): (doc: seq<Section>)
    ensures UniqueNames(doc)
    ensures |doc| > 0 && doc[0].name == DefaultSection
    ensures forall n :: n in Names(doc) <==> n == DefaultSection || n in Names(raw)
  {
    LoadInto([Section(DefaultSection, [])], raw)
  }

  /** `seen` followed by the names of `names` it does not hold yet, each once, in the
      order of their first occurrence. */
  function FirstOccurrences(seen: seq<string>, names: seq<string>): seq<string>
    decreases |names|
  {
    if names == [] then seen
    else FirstOccurrences(if names[0] in seen then seen else seen + [names[0]], names[1..])
  }

  /** Applying a header changes the section of its name and adds it at the end when the
      name is new; every other section stays where and as it was. */
  lemma AddSectionShape(doc: seq<Section>, s: Section)
    requires UniqueNames(doc)
    ensures var r := AddSection(doc, s);
      && (|r| == |doc| <==> s.name in Names(doc))
      && (|r| == |doc| || |r| == |doc| + 1)
      && (forall i :: 0 <= i < |doc| ==>
            r[i] == if doc[i].name == s.name then Section(s.name, SetKeys(doc[i].keys, s.keys)) else doc[i])
      && (|r| == |doc| + 1 ==> r[|doc|] == Section(s.name, SetKeys([], s.keys)))
  {
    match IndexOf(doc, s.name)
    case Some(i) =>
      assert Names(doc)[i] == s.name;
    case None =>
  }

  /** The names of a loaded document: those it had, then the new names of the headers in
      the order of their first occurrence. */
  lemma {:induction false} LoadIntoNames(doc: seq<Section>, raw: seq<Section>)
    requires UniqueNames(doc)
    ensures Names(LoadInto(doc, raw)) == FirstOccurrences(Names(doc), Names(raw))
    decreases |raw|
  {
    if raw != [] {
      var next := AddSection(doc, raw[0]);
      AddSectionShape(doc, raw[0]);
      assert Names(next) == if raw[0].name in Names(doc) then Names(doc) else Names(doc) + [raw[0].name];
      LoadIntoNames(next, raw[1..]);
      assert Names(raw) == [raw[0].name] + Names(raw[1..]);
    }
  }

  /** `ini.Load` keeps the headers' order: DEFAULT, then each name at the place of its
      first header. */
  lemma LoadNames(raw: seq<Section>)
    ensures Names(Load(raw)) == FirstOccurrences([DefaultSection], Names(raw))
  {
    LoadIntoNames([Section(DefaultSection, [])], raw);
  }

  /** The keys a section starting with `keys` ends up with once every section of `raw`
      called `name` has set its keys on it, in order. */
  function KeysAfter(keys: seq<Key>, raw: seq<Section>, name: string): seq<Key>
    decreases |raw|
  {
    if raw == [] then keys
    else KeysAfter(if raw[0].name == name then SetKeys(keys, raw[0].keys) else keys, raw[1..], name)
  }

  /** Every header of a name sets its keys on the one section of that name, in the order
      of the headers. */
  lemma {:induction false} LoadIntoKeys(doc: seq<Section>, raw: seq<Section>)
    requires UniqueNames(doc)
    ensures var r := LoadInto(doc, raw);
      forall i :: 0 <= i < |r| ==> r[i].keys == KeysAfter(if i < |doc| then doc[i].keys else [], raw, r[i].name)
    decreases |raw|
  {
    if raw != [] {
      var s, rest := raw[0], raw[1..];
      var next := AddSection(doc, s);
      var r := LoadInto(next, rest);
      LoadIntoKeys(next, rest);
      forall i | 0 <= i < |r|
        ensures r[i].keys == KeysAfter(if i < |doc| then doc[i].keys else [], raw, r[i].name)
      {
        KeysStepAt(doc, s, r, i);
      }
    }
  }

  /** The keys a section of the loaded document has after the first header are those the
      header leaves on it: only the section of the header's name changes. */
  lemma KeysStepAt(doc: seq<Section>, s: Section, r: seq<Section>, i: nat)
    requires UniqueNames(doc) && UniqueNames(r) && i < |r|
    requires var next := AddSection(doc, s); |next| <= |r| && Names(r)[..|next|] == Names(next)
    ensures var next, k0 := AddSection(doc, s), if i < |doc| then doc[i].keys else [];
      (if i < |next| then next[i].keys else []) == (if s.name == r[i].name then SetKeys(k0, s.keys) else k0)
  {
    var next := AddSection(doc, s);
    if i < |next| {
      assert Names(r)[..|next|][i] == Names(r)[i];
      KeysInside(doc, s, i);
    } else {
      AddSectionShape(doc, s);
      var m: nat := if |next| == |doc| then IndexOf(doc, s.name).value else |doc|;
      assert Names(r)[..|next|][m] == Names(r)[m];
    }
  }

  /** The keys of a section of the document after one header. */
  lemma KeysInside(doc: seq<Section>, s: Section, i: nat)
    requires UniqueNames(doc) && i < |AddSection(doc, s)|
    ensures var next, k0 := AddSection(doc, s), if i < |doc| then doc[i].keys else [];
      next[i].keys == (if s.name == next[i].name then SetKeys(k0, s.keys) else k0)
  {
    AddSectionShape(doc, s);
  }

  /** `ini.Load` merges the keys of repeated headers: each section holds the keys of every
      header of its name, set in order. */
  lemma LoadKeys(raw: seq<Section>)
    ensures var doc := Load(raw);
      forall i :: 0 <= i < |doc| ==> doc[i].keys == KeysAfter([], raw, doc[i].name)
  {
    LoadIntoKeys([Section(DefaultSection, [])], raw);
  }

  /** Loading headers in two parts. */
  lemma {:induction false} LoadIntoAppend(doc: seq<Section>, a: seq<Section>, b: seq<Section>)
    requires UniqueNames(doc)
    ensures LoadInto(doc, a + b) == LoadInto(LoadInto(doc, a), b)
    decreases |a|
  {
    if a != [] {
      assert (a + b)[0] == a[0] && (a + b)[1..] == a[1..] + b;
      LoadIntoAppend(AddSection(doc, a[0]), a[1..], b);
    } else {
      assert a + b == b;
    }
  }

  /** Headers without keys whose names are new and distinct are appended as they are. */
  lemma {:induction false} LoadIntoFresh(doc: seq<Section>, raw: seq<Section>)
    requires UniqueNames(doc) && UniqueNames(doc + raw)
    requires forall k :: 0 <= k < |raw| ==> raw[k].keys == []
    ensures LoadInto(doc, raw) == doc + raw
    decreases |raw|
  {
    if raw == [] {
      assert doc + raw == doc;
    } else {
      var next := doc + [raw[0]];
      assert next + raw[1..] == doc + raw;
      FreshHead(doc, raw);
      LoadIntoFresh(next, raw[1..]);
    }
  }

  /** The first of the fresh headers is appended. */
  lemma FreshHead(doc: seq<Section>, raw: seq<Section>)
    requires raw != [] && raw[0].keys == []
    requires UniqueNames(doc + raw)
    ensures UniqueNames(doc) && AddSection(doc, raw[0]) == doc + [raw[0]]
  {
    forall k | 0 <= k < |doc| ensures doc[k].name != raw[0].name {
      assert (doc + raw)[k] == doc[k] && (doc + raw)[|doc|] == raw[0];
    }
    forall i, j | 0 <= i < j < |doc| ensures doc[i].name != doc[j].name {
      assert (doc + raw)[i] == doc[i] && (doc + raw)[j] == doc[j];
    }
    assert IndexOf(doc, raw[0].name).None?;
  }

  /** A header without keys that repeats a section without keys changes nothing. */
  lemma LoadIntoRepeat(doc: seq<Section>, i: nat)
    requires UniqueNames(doc) && i < |doc| && doc[i].keys == []
    ensures LoadInto(doc, [doc[i]]) == doc
  {
    assert [doc[i]][1..] == [];
    assert IndexOf(doc, doc[i].name) == Some(i);
    assert doc[i := Section(doc[i].name, SetKeys([], []))] == doc;
  }

  /** A loaded configuration file (`*ini.File`). */
  class File {

    var sections: seq<Section>

    /** With the default load options no two sections share a name. */
    predicate Valid()
      reads this
    {
      UniqueNames(sections)
    }

    /** `File.DeleteSection(name)`: removes every section called `name`. */
    method DeleteSection(name: string)
      modifies this
      ensures sections == Without(old(sections), name)
      ensures old(Valid()) ==> Valid()
    {
      if Valid() {
        WithoutUnique(sections, name);
      }
      sections := Without(sections, name);
    }

    /** `File.NewSection(name)`: an empty name is an error; an existing name gives back the
        existing section; otherwise an empty section is appended. */
    method NewSection(name: string) returns (r: Result<nat, IniError>)
      modifies this
      ensures name == "" ==> r == Failure(EmptySectionName) && sections == old(sections)
      ensures name != "" && IndexOf(old(sections), name).Some? ==>
        sections == old(sections) && r == Success(IndexOf(old(sections), name).value)
      ensures name != "" && IndexOf(old(sections), name).None? ==>
        sections == old(sections) + [Section(name, [])] && r == Success(|old(sections)|)
      ensures old(Valid()) ==> Valid()
    {
      if name == "" {
        return Failure(EmptySectionName);
      }
      match IndexOf(sections, name)
      case Some(i) =>
        r := Success(i);
      case None =>
        r := Success(|sections|);
        sections := sections + [Section(name, [])];
    }

    /** `Section.NewKey(key, value)` on the section at position `index`. */
    method NewKey(index: nat, key: string, value: string)
      requires index < |sections|
      modifies this
      ensures sections == old(sections)[index := Section(old(sections)[index].name,
                                                         SetKey(old(sections)[index].keys, key, value))]
      ensures old(Valid()) ==> Valid()
    {
      sections := sections[index := Section(sections[index].name, SetKey(sections[index].keys, key, value))];
    }

    /** `Section.ReflectFrom(v)` on the section at position `index`: each field of `v` is
        set as a key, in field order; `keys` are the fields with their `ini` tag names. */
    method ReflectFrom(index: nat, keys: seq<Key>)
      requires index < |sections|
      modifies this
      ensures sections == old(sections)[index := Section(old(sections)[index].name,
                                                         SetKeys(old(sections)[index].keys, keys))]
      ensures old(Valid()) ==> Valid()
    {
      for k := 0 to |keys|
        invariant |sections| == |old(sections)|
        invariant sections == old(sections)[index := Section(old(sections)[index].name,
                                                               SetKeys(old(sections)[index].keys, keys[..k]))]
      {
        NewKey(index, keys[k].name, keys[k].value);
        SetKeysSnoc(old(sections)[index].keys, keys[..k], keys[k]);
        assert keys[..k + 1] == keys[..k] + [keys[k]];
      }
      assert keys[..|keys|] == keys;
    }
  }
}
