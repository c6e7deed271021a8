/** Small facts about sequences that several modules share. */
module Seqs {

  /** No element occurs twice. */
  predicate NoDup<T(==)>(s: seq<T>) {
    forall i, j :: 0 <= i < j < |s| ==> s[i] != s[j]
  }

  /** `s` back to front (JavaScript's `Array.prototype.reverse` on a copy). */
  function Reverse<T>(s: seq<T>): (r: seq<T>)
    ensures |r| == |s|
    ensures forall k :: 0 <= k < |s| ==> r[k] == s[|s| - 1 - k]
  {
    if s == [] then [] else Reverse(s[1..]) + [s[0]]
  }

  lemma ReverseKeepsElements<T>(s: seq<T>)
    ensures forall x :: x in Reverse(s) <==> x in s
  {
    var r := Reverse(s);
    forall x | x in s ensures x in r {
      var k :| 0 <= k < |s| && s[k] == x;
      assert r[|s| - 1 - k] == x;
    }
  }

  lemma {:induction false} ReverseNoDup<T>(s: seq<T>)
    requires NoDup(s)
    ensures NoDup(Reverse(s))
  {
    var r := Reverse(s);
    forall i, j | 0 <= i < j < |r| ensures r[i] != r[j] {
      assert r[i] == s[|s| - 1 - i] && r[j] == s[|s| - 1 - j];
    }
  }

  /** The elements strictly between the first and the last (empty for fewer than three). */
  function Middle<T>(s: seq<T>): (r: seq<T>)
    ensures |s| >= 2 ==> |r| == |s| - 2
    ensures forall x :: x in r ==> x in s
  {
    if |s| <= 2 then [] else s[1..|s| - 1]
  }

  /** JavaScript's `a.slice(1)`: everything but the first element, empty when `a` is. */
  function Tail<T>(s: seq<T>): seq<T> {
    if |s| == 0 then [] else s[1..]
  }

  /** Pushing an element and taking the middle is dropping the first element. */
  lemma MiddleOfAppend<T>(s: seq<T>, x: T)
    ensures Middle(s + [x]) == Tail(s)
  {
    if |s| >= 2 {
      assert (s + [x])[1..|s|] == s[1..];
    }
  }

  /** Without repeats, the middle repeats nothing and holds neither end. */
  lemma MiddleExcludesEnds<T>(s: seq<T>)
    requires NoDup(s) && |s| >= 1
    ensures NoDup(Middle(s))
    ensures s[0] !in Middle(s) && s[|s| - 1] !in Middle(s)
  {
    if |s| > 2 {
      var m := Middle(s);
      assert forall k :: 0 <= k < |m| ==> m[k] == s[k + 1];
    }
  }
}
