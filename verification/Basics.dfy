/** What several models share. */
module Basics {

  datatype Option<+T> = None | Some(value: T)

  /** No element occurs twice. */
  ghost predicate NoRepeats<T>(s: seq<T>) {
    forall i, j :: 0 <= i < j < |s| ==> s[i] != s[j]
  }

  ghost predicate Ascending(s: seq<nat>) {
    forall a, b :: 0 <= a < b < |s| ==> s[a] < s[b]
  }

  lemma {:induction false} Associative<T>(a: seq<T>, b: seq<T>, c: seq<T>)
    ensures a + b + c == a + (b + c)
  {
  }

  // --------------------------------------------------- pieces of a text

  /** The first k pieces, one after the other. */
  ghost function Flat<T>(pieces: seq<seq<T>>, k: nat): seq<T>
    requires k <= |pieces|
  {
    if k == 0 then [] else Flat(pieces, k - 1) + pieces[k - 1]
  }

  /** d has l at i. */
  ghost predicate Has<T>(d: seq<T>, i: nat, l: seq<T>) {
    i + |l| <= |d| && forall x :: 0 <= x < |l| ==> d[i + x] == l[x]
  }

  lemma {:induction false} FlatHas<T>(pieces: seq<seq<T>>, j: nat, n: nat, tail: seq<T>)
    requires j < n <= |pieces|
    ensures Has(Flat(pieces, n) + tail, |Flat(pieces, j)|, pieces[j])
    decreases n
  {
    if j < n - 1 {
      FlatHas(pieces, j, n - 1, pieces[n - 1] + tail);
      assert Flat(pieces, n) + tail == Flat(pieces, n - 1) + (pieces[n - 1] + tail);
    }
  }

  /** Where the pieces start, and where the last one ends. */
  ghost function PieceStarts<T>(pieces: seq<seq<T>>): seq<nat> {
    seq(|pieces| + 1, j requires 0 <= j <= |pieces| => |Flat(pieces, j)|)
  }
}
