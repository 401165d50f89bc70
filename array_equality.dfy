/** The comparison the registry tests use to check a list of section names against the
    expected one: equal lengths, and every name received is among the names wanted. */
module ArrayEquality {

  /** The names of `got` that are not in `want`, in the order and with the repetitions of
      `got`. */
  function Absent(want: seq<string>, got: seq<string>): seq<string> {
    if got == [] then []
    else Absent(want, got[..|got| - 1]) + (if got[|got| - 1] in want then [] else [got[|got| - 1]])
  }

  /** A name is reported exactly when it was received and is not wanted. */
  lemma {:induction false} AbsentMembers(want: seq<string>, got: seq<string>)
    ensures forall v :: v in Absent(want, got) <==> v in got && v !in want
  {
    if got != [] {
      var init := got[..|got| - 1];
      AbsentMembers(want, init);
      assert got == init + [got[|got| - 1]];
      assert forall v :: v in got <==> v in init || v == got[|got| - 1];
    }
  }

  /** Nothing is reported exactly when every received name is wanted. */
  lemma AbsentEmpty(want: seq<string>, got: seq<string>)
    ensures Absent(want, got) == [] <==> forall i :: 0 <= i < |got| ==> got[i] in want
  {
    AbsentMembers(want, got);
    if Absent(want, got) != [] {
      assert Absent(want, got)[0] in Absent(want, got);
    }
  }

  /** The verdict of the comparison, as a function. */
  predicate Accepts(want: seq<string>, got: seq<string>) {
    |want| == |got| && Absent(want, got) == []
  }

  /** The comparison is not multiset equality: with a repeated name it accepts a list that
      is not a rearrangement of the wanted one. */
  lemma AcceptsNonPermutation()
    ensures Accepts(["a", "b"], ["a", "a"]) && multiset(["a", "b"]) != multiset(["a", "a"])
  {
    assert "a" in ["a", "b"];
    assert Absent(["a", "b"], ["a"]) == [];
    assert "b" !in multiset(["a", "a"]);
  }

  /** Every permutation of the wanted list is accepted. */
  lemma PermutationAccepted(want: seq<string>, got: seq<string>)
    requires multiset(want) == multiset(got)
    ensures Accepts(want, got)
  {
    assert |want| == |multiset(want)| == |multiset(got)| == |got|;
    forall i | 0 <= i < |got| ensures got[i] in want {
      assert got[i] in multiset(got);
    }
    AbsentEmpty(want, got);
  }

  /** `CheckArrayEquality`: lists of different lengths are unequal with nothing reported;
      otherwise each received name is looked up among the wanted ones, and the names not
      found are reported in order. */
  method CheckArrayEquality(want: seq<string>, got: seq<string>) returns (equal: bool, invalid: seq<string>)
    ensures |want| != |got| ==> !equal && invalid == []
    ensures |want| == |got| ==> invalid == Absent(want, got)
    ensures equal <==> |want| == |got| && forall i :: 0 <= i < |got| ==> got[i] in want
    ensures equal == Accepts(want, got)
  {
    if |want| != |got| {
      return false, [];
    }
    invalid := [];
    for i := 0 to |got|
      invariant invalid == Absent(want, got[..i])
    {
      var v := got[i];
      var isValid := false;
      for j := 0 to |want|
        invariant isValid <==> v in want[..j]
      {
        if want[j] == v {
          isValid := true;
        }
        assert want[..j + 1] == want[..j] + [want[j]];
      }
      assert want[..|want|] == want;
      if !isValid {
        invalid := invalid + [v];
      }
      assert got[..i + 1][..i] == got[..i];
    }
    assert got[..|got|] == got;
    AbsentEmpty(want, got);
    if |invalid| > 0 {
      return false, invalid;
    }
    return true, [];
  }
}
