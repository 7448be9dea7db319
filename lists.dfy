/** Array.prototype.filter over sequences, with the facts the note list and
    the attachment list rely on: what is kept, that order is kept, and when
    filtering changes nothing. */
module Lists {

  /** The elements of s for which keep holds, in their order in s. */
  function Filter<T>(s: seq<T>, keep: T -> bool): (r: seq<T>)
    ensures |r| <= |s|
    ensures forall i :: 0 <= i < |r| ==> r[i] in s && keep(r[i])
    ensures forall i :: 0 <= i < |s| && keep(s[i]) ==> s[i] in r
  {
    if s == [] then []
    else (if keep(s[0]) then [s[0]] else []) + Filter(s[1..], keep)
  }

  /** Filtering distributes over concatenation: whatever survives from s comes
      before whatever survives from t, so relative order is preserved. */
  lemma {:induction false} FilterConcat<T>(s: seq<T>, t: seq<T>, keep: T -> bool)
    ensures Filter(s + t, keep) == Filter(s, keep) + Filter(t, keep)
  {
    if s != [] {
      var head := if keep(s[0]) then [s[0]] else [];
      assert (s + t)[0] == s[0];
      assert (s + t)[1..] == s[1..] + t;
      assert Filter(s + t, keep) == head + Filter(s[1..] + t, keep);
      FilterConcat(s[1..], t, keep);
      assert head + (Filter(s[1..], keep) + Filter(t, keep))
          == (head + Filter(s[1..], keep)) + Filter(t, keep);
    } else {
      assert s + t == t;
    }
  }

  /** Filtering returns its input unchanged exactly when every element is kept. */
  lemma {:induction false} FilterUnchangedIff<T>(s: seq<T>, keep: T -> bool)
    ensures Filter(s, keep) == s <==> forall i :: 0 <= i < |s| ==> keep(s[i])
  {
    if forall i :: 0 <= i < |s| ==> keep(s[i]) {
      if s != [] {
        assert keep(s[0]);
        assert forall i :: 0 <= i < |s[1..]| ==> keep(s[1..][i]) by {
          forall i | 0 <= i < |s[1..]| ensures keep(s[1..][i]) {
            assert s[1..][i] == s[i + 1];
          }
        }
        FilterUnchangedIff(s[1..], keep);
        assert [s[0]] + s[1..] == s;
      }
    } else {
      var i :| 0 <= i < |s| && !keep(s[i]);
    }
  }

  /** Filtering drops at least one element whenever some element fails keep. */
  lemma {:induction false} FilterShrinks<T>(s: seq<T>, keep: T -> bool, i: nat)
    requires i < |s| && !keep(s[i])
    ensures |Filter(s, keep)| < |s|
  {
    if i > 0 {
      assert s[1..][i - 1] == s[i];
      FilterShrinks(s[1..], keep, i - 1);
    }
  }

  /** Filtering twice with the same test is filtering once. */
  lemma FilterIdempotent<T>(s: seq<T>, keep: T -> bool)
    ensures Filter(Filter(s, keep), keep) == Filter(s, keep)
  {
    var r := Filter(s, keep);
    assert forall i :: 0 <= i < |r| ==> keep(r[i]);
    FilterUnchangedIff(r, keep);
  }
}
