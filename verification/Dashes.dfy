/** The two loops that cut a line of the fibre plan into dashes: on the image, and as geometry in the KMZ. */
module Dashes {
  import opened Reals

  /** A stretch of the line, in distance from its start. */
  datatype Dash = Dash(from: real, to: real)

  /** `n` steps of length `step`. */
  function Along(n: nat, step: real): real {
    Product(n as real, step)
  }

  /** The first `n` dashes. */
  function DashesUpTo(n: nat, total: real, dash: real, step: real): (ds: seq<Dash>)
    ensures |ds| == n
  {
    if n == 0 then []
    else DashesUpTo(n - 1, total, dash, step)
         + [Dash(Along(n - 1, step), Min(Along(n - 1, step) + dash, total))]
  }

  /** Exactly `n` steps reach the end: `n` is total / step, rounded up. */
  predicate Steps(n: nat, total: real, step: real) {
    Along(n, step) >= total && (n > 0 ==> Along(n - 1, step) < total)
  }

  lemma AlongNext(n: nat, step: real)
    ensures Along(n + 1, step) == Along(n, step) + step
  {
    assert (n + 1) as real == n as real + 1.0;
  }

  lemma {:induction false} AlongGrows(m: nat, n: nat, step: real)
    requires m <= n && step > 0.0
    ensures Along(m, step) <= Along(n, step)
    decreases n - m
  {
    if m < n {
      AlongNext(m, step);
      AlongGrows(m + 1, n, step);
    }
  }

  lemma StepsUnique(m: nat, n: nat, total: real, step: real)
    requires Steps(m, total, step) && Steps(n, total, step) && step > 0.0
    ensures m == n
  {
    if m < n {
      AlongGrows(m, n - 1, step);
    } else if n < m {
      AlongGrows(n, m - 1, step);
    }
  }

  /** Enough steps to pass the end of the line: what makes the loops stop. */
  lemma EnoughSteps(total: real, step: real) returns (n: nat)
    requires step > 0.0 && total > 0.0
    ensures Along(n, step) >= total
  {
    var q := total / step;
    n := q.Floor + 1;
    assert n as real > q;
    assert q * step == total;
  }

  /** `_dashed`: the next dash starts a gap after the end of this one. */
  method ImageDashes(total: real, dash: real, gap: real) returns (out: seq<Dash>)
    requires dash > 0.0 && gap >= 0.0
    ensures total > 0.0 ==> Steps(|out|, total, dash + gap)
    ensures out == DashesUpTo(|out|, total, dash, dash + gap)
    ensures total <= 0.0 ==> out == []
  {
    out := [];
    if total <= 0.0 {
      return;
    }
    var step := dash + gap;
    ghost var enough := EnoughSteps(total, step);
    var pos := 0.0;
    assert Along(0, step) == 0.0;
    while pos < total
      invariant pos == Along(|out|, step) || (pos >= total && Along(|out|, step) >= total)
      invariant |out| > 0 ==> Along(|out| - 1, step) < total
      invariant out == DashesUpTo(|out|, total, dash, step)
      decreases enough - |out|
    {
      if enough <= |out| {
        AlongGrows(enough, |out|, step);
      }
      AlongNext(|out|, step);
      var end := Min(pos + dash, total);
      out := out + [Dash(pos, end)];
      pos := end + gap;
    }
  }

  /** `_dash_segments`: the next dash starts a whole step after the start of this one. */
  method GeometryDashes(total: real, dash: real, gap: real) returns (out: seq<Dash>)
    requires dash > 0.0 && gap >= 0.0
    ensures total > 0.0 ==> Steps(|out|, total, dash + gap)
    ensures out == DashesUpTo(|out|, total, dash, dash + gap)
    ensures total <= 0.0 ==> out == []
  {
    out := [];
    if total <= 0.0 {
      return;
    }
    var pos, step := 0.0, dash + gap;
    ghost var enough := EnoughSteps(total, step);
    assert Along(0, step) == 0.0;
    while pos < total
      invariant pos == Along(|out|, step)
      invariant |out| > 0 ==> Along(|out| - 1, step) < total
      invariant out == DashesUpTo(|out|, total, dash, step)
      decreases enough - |out|
    {
      if enough <= |out| {
        AlongGrows(enough, |out|, step);
      }
      AlongNext(|out|, step);
      var end := Min(pos + dash, total);
      out := out + [Dash(pos, end)];
      pos := pos + step;
    }
  }

  /** Both drawings show the same dashes. */
  method BothDrawings(total: real, dash: real, gap: real) returns (image: seq<Dash>, geometry: seq<Dash>)
    requires dash > 0.0 && gap >= 0.0
    ensures image == geometry
  {
    image := ImageDashes(total, dash, gap);
    geometry := GeometryDashes(total, dash, gap);
    if total > 0.0 {
      StepsUnique(|image|, |geometry|, total, dash + gap);
    }
  }

  lemma {:induction false} DashAt(n: nat, total: real, dash: real, step: real, k: nat)
    requires k < n
    ensures DashesUpTo(n, total, dash, step)[k] == Dash(Along(k, step), Min(Along(k, step) + dash, total))
  {
    if k < n - 1 {
      DashAt(n - 1, total, dash, step, k);
    }
  }

  /** A dash ends where it is whole, or where the line ends if that comes first, which only the last one meets. */
  lemma DashEnd(n: nat, total: real, dash: real, gap: real, k: nat)
    requires dash > 0.0 && gap >= 0.0 && Steps(n, total, dash + gap) && k < n
    ensures var from := Along(k, dash + gap);
            && from < Min(from + dash, total)
            && (k < n - 1 ==> Min(from + dash, total) == from + dash)
  {
    AlongGrows(k, n - 1, dash + gap);
    if k < n - 1 {
      AlongNext(k, dash + gap);
      AlongGrows(k + 1, n - 1, dash + gap);
    }
  }

  /** From the start of the line, whole dashes a gap apart; only the last one may be cut by the end of the line. */
  lemma DashesAreApart(n: nat, total: real, dash: real, gap: real, j: nat, k: nat)
    requires dash > 0.0 && gap >= 0.0 && Steps(n, total, dash + gap) && j <= k < n
    ensures var ds := DashesUpTo(n, total, dash, dash + gap);
            && 0.0 <= ds[k].from < ds[k].to <= total
            && (j < k ==> ds[j].to == ds[j].from + dash && ds[j].to + gap <= ds[k].from)
            && (k == j + 1 ==> ds[j].to + gap == ds[k].from) && (k == 0 ==> ds[k].from == 0.0)
            && (ds[k].to == ds[k].from + dash || (k == n - 1 && ds[k].to == total))
  {
    var step := dash + gap;
    DashAt(n, total, dash, step, j);
    DashAt(n, total, dash, step, k);
    DashEnd(n, total, dash, gap, j);
    DashEnd(n, total, dash, gap, k);
    AlongGrows(0, k, step);
    assert Along(0, step) == 0.0;
    if j < k {
      AlongNext(j, step);
      AlongGrows(j + 1, k, step);
    }
  }

  function Length(ds: seq<Dash>): real {
    if ds == [] then 0.0 else Length(ds[..|ds| - 1]) + (ds[|ds| - 1].to - ds[|ds| - 1].from)
  }

  lemma {:induction false} FullDashes(n: nat, total: real, dash: real, step: real)
    requires 0.0 < dash <= step && Along(n, step) <= total
    ensures Length(DashesUpTo(n, total, dash, step)) == Along(n, dash)
  {
    if n > 0 {
      AlongNext(n - 1, step);
      FullDashes(n - 1, total, dash, step);
      AlongNext(n - 1, dash);
      var ds := DashesUpTo(n, total, dash, step);
      assert ds[..n - 1] == DashesUpTo(n - 1, total, dash, step);
    }
  }

  /** The drawn share of the line is at least dash / (dash + gap). */
  lemma EnoughIsDrawn(n: nat, total: real, dash: real, gap: real)
    requires dash > 0.0 && gap >= 0.0 && total > 0.0 && Steps(n, total, dash + gap)
    ensures Product(Length(DashesUpTo(n, total, dash, dash + gap)), dash + gap) >= Product(total, dash)
  {
    assert Along(0, dash + gap) == 0.0;
    var step, rest := dash + gap, total - Along(n - 1, dash + gap);
    AlongNext(n - 1, step);
    LengthDrawn(n, total, dash, step);
    SharesAdd(n - 1, dash, gap, rest);
  }

  lemma LengthDrawn(n: nat, total: real, dash: real, step: real)
    requires n > 0 && 0.0 < dash <= step && Along(n - 1, step) < total
    ensures Length(DashesUpTo(n, total, dash, step)) == Along(n - 1, dash) + Min(dash, total - Along(n - 1, step))
  {
    FullDashes(n - 1, total, dash, step);
    var ds := DashesUpTo(n, total, dash, step);
    assert ds[..n - 1] == DashesUpTo(n - 1, total, dash, step);
  }

  /** `k` whole steps and a rest of at most one step. */
  lemma SharesAdd(k: nat, dash: real, gap: real, rest: real)
    requires dash > 0.0 && gap >= 0.0 && 0.0 < rest <= dash + gap
    ensures Product(Along(k, dash) + Min(dash, rest), dash + gap) >= Product(Along(k, dash + gap) + rest, dash)
  {
    var step, share := dash + gap, Min(dash, rest);
    assert share * step >= rest * dash;
    assert Along(k, dash) * step == Along(k, step) * dash;
    assert (Along(k, dash) + share) * step == Along(k, dash) * step + share * step;
    assert (Along(k, step) + rest) * dash == Along(k, step) * dash + rest * dash;
  }

}
