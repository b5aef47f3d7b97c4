/** Sums over rows, for the counting arguments. */
module Counting {

  function Sum(ws: seq<nat>): nat {
    if ws == [] then 0 else Sum(ws[..|ws| - 1]) + ws[|ws| - 1]
  }

  lemma SumAppend(ws: seq<nat>, w: nat)
    ensures Sum(ws + [w]) == Sum(ws) + w
  {
    assert (ws + [w])[..|ws|] == ws;
  }

  lemma {:induction false} SumUpdate(ws: seq<nat>, i: nat, w: nat)
    requires i < |ws|
    ensures Sum(ws[i := w]) + ws[i] == Sum(ws) + w
  {
    var n := |ws| - 1;
    if i == n {
      assert ws[i := w][..n] == ws[..n];
    } else {
      SumUpdate(ws[..n], i, w);
      assert ws[i := w][..n] == ws[..n][i := w];
    }
  }

  lemma {:induction false} SumPointwise(a: seq<nat>, b: seq<nat>, c: seq<nat>, total: seq<nat>)
    requires |a| == |b| == |c| == |total|
    requires forall i | 0 <= i < |total| :: a[i] + b[i] + c[i] == total[i]
    ensures Sum(a) + Sum(b) + Sum(c) == Sum(total)
  {
    if total != [] {
      var n := |total| - 1;
      SumPointwise(a[..n], b[..n], c[..n], total[..n]);
    }
  }

  lemma {:induction false} SumZeroTail(ws: seq<nat>, n: nat)
    requires n <= |ws| && forall i | n <= i < |ws| :: ws[i] == 0
    ensures Sum(ws) == Sum(ws[..n])
  {
    if n < |ws| {
      SumZeroTail(ws[..|ws| - 1], n);
      assert ws[..|ws| - 1][..n] == ws[..n];
    } else {
      assert ws[..n] == ws;
    }
  }
}
