/** Bounded Levenshtein distance: the two-row table with early exit, proved
    against the fewest edits over all edit scripts. */
module EditDistance {

  /* ---- Edit scripts ---- */

  datatype Edit = Keep | Replace(c: char) | Insert(c: char) | Delete

  /** Whether the script, read from the left, turns a into b. */
  predicate Turns(script: seq<Edit>, a: string, b: string) {
    if script == [] then a == "" && b == ""
    else
      var front := script[..|script| - 1];
      match script[|script| - 1]
      case Keep => a != "" && b != "" && Last(a) == Last(b) && Turns(front, Front(a), Front(b))
      case Replace(c) => a != "" && b != "" && Last(b) == c && Turns(front, Front(a), Front(b))
      case Insert(c) => b != "" && Last(b) == c && Turns(front, a, Front(b))
      case Delete => a != "" && Turns(front, Front(a), b)
  }

  function Cost(script: seq<Edit>): nat {
    if script == [] then 0
    else Cost(script[..|script| - 1]) + (if script[|script| - 1].Keep? then 0 else 1)
  }

  function Last(s: string): char
    requires s != ""
  {
    s[|s| - 1]
  }

  function Front(s: string): string
    requires s != ""
  {
    s[..|s| - 1]
  }

  /** The fewest edits that turn a into b. */
  ghost predicate IsDistance(d: int, a: string, b: string) {
    && (exists script :: Turns(script, a, b) && Cost(script) == d)
    && (forall script :: Turns(script, a, b) ==> Cost(script) >= d)
  }

  /* ---- The recurrence the table fills ---- */

  function Min3(a: int, b: int, c: int): int {
    if a < b then if a < c then a else c
    else if b < c then b else c
  }

  function Lev(a: string, b: string): nat
    decreases |a| + |b|
  {
    if a == "" then |b|
    else if b == "" then |a|
    else Min3(Lev(a, Front(b)) + 1, Lev(Front(a), b) + 1,
              Lev(Front(a), Front(b)) + if Last(a) == Last(b) then 0 else 1)
  }

  lemma Extend(script: seq<Edit>, e: Edit)
    ensures (script + [e])[..|script|] == script
    ensures Cost(script + [e]) == Cost(script) + if e.Keep? then 0 else 1
  {
  }

  lemma {:induction false} BestScript(a: string, b: string) returns (script: seq<Edit>)
    ensures Turns(script, a, b) && Cost(script) == Lev(a, b)
    decreases |a| + |b|
  {
    if a == "" && b == "" {
      script := [];
    } else {
      var e: Edit;
      if a == "" || (b != "" && Lev(a, b) == Lev(a, Front(b)) + 1) {
        script := BestScript(a, Front(b));
        e := Insert(Last(b));
      } else if b == "" || Lev(a, b) == Lev(Front(a), b) + 1 {
        script := BestScript(Front(a), b);
        e := Delete;
      } else {
        script := BestScript(Front(a), Front(b));
        e := if Last(a) == Last(b) then Keep else Replace(Last(b));
      }
      Extend(script, e);
      script := script + [e];
    }
  }

  /** Neighbouring cells of the table differ by at most one. */
  lemma {:induction false} Neighbours(a: string, b: string)
    ensures a != "" ==> Lev(a, b) <= Lev(Front(a), b) + 1 && Lev(Front(a), b) <= Lev(a, b) + 1
    ensures b != "" ==> Lev(a, b) <= Lev(a, Front(b)) + 1 && Lev(a, Front(b)) <= Lev(a, b) + 1
    decreases |a| + |b|
  {
    if a != "" && b != "" {
      Neighbours(Front(a), b);
      Neighbours(a, Front(b));
    }
  }

  lemma {:induction false} NoCheaperScript(script: seq<Edit>, a: string, b: string)
    requires Turns(script, a, b)
    ensures Cost(script) >= Lev(a, b)
    decreases |script|
  {
    if script != [] {
      var front := script[..|script| - 1];
      match script[|script| - 1] {
        case Keep | Replace(_) => NoCheaperScript(front, Front(a), Front(b));
        case Insert(_) => NoCheaperScript(front, a, Front(b)); Neighbours(a, b);
        case Delete => NoCheaperScript(front, Front(a), b); Neighbours(a, b);
      }
    }
  }

  /** The recurrence computes the fewest edits. */
  lemma LevIsDistance(a: string, b: string)
    ensures IsDistance(Lev(a, b), a, b)
  {
    var best := BestScript(a, b);
    forall script | Turns(script, a, b)
      ensures Cost(script) >= Lev(a, b)
    {
      NoCheaperScript(script, a, b);
    }
  }

  /* ---- The shortcuts ---- */

  lemma {:induction false} LevSame(a: string)
    ensures Lev(a, a) == 0
    decreases |a|
  {
    if a != "" {
      LevSame(Front(a));
    }
  }

  function Abs(x: int): nat { if x < 0 then -x else x }

  lemma {:induction false} LengthGap(a: string, b: string)
    ensures Lev(a, b) >= Abs(|a| - |b|)
    decreases |a| + |b|
  {
    if a != "" && b != "" {
      LengthGap(a, Front(b));
      LengthGap(Front(a), b);
      LengthGap(Front(a), Front(b));
    }
  }

  /** Once a whole row is above a bound, so is everything below it. */
  lemma {:induction false} RowMinimaGrow(a: string, b: string, i: nat, p: nat, q: nat, bound: int)
    requires i <= p <= |a| && q <= |b|
    requires forall j :: 0 <= j <= |b| ==> Lev(a[..i], b[..j]) > bound
    ensures Lev(a[..p], b[..q]) > bound
    decreases p, q
  {
    if p > i {
      assert Front(a[..p]) == a[..p - 1];
      RowMinimaGrow(a, b, i, p - 1, q, bound);
      if q > 0 {
        assert Front(b[..q]) == b[..q - 1];
        RowMinimaGrow(a, b, i, p, q - 1, bound);
        RowMinimaGrow(a, b, i, p - 1, q - 1, bound);
      } else {
        assert Lev(a[..p - 1], b[..0]) == p - 1;
      }
    }
  }

  /* ---- The loop ---- */

  lemma {:induction false} LevStep(a: string, b: string)
    requires a != "" && b != ""
    ensures Lev(a, b) == Min3(Lev(a, Front(b)) + 1, Lev(Front(a), b) + 1,
                              Lev(Front(a), Front(b)) + if a[|a| - 1] != b[|b| - 1] then 1 else 0)
  {
  }

  lemma {:induction false} LevOfEmpty(a: string)
    ensures Lev(a, "") == |a| && Lev("", a) == |a|
  {
  }

  lemma {:induction false} Cell(a: string, b: string, i: nat, j: nat)
    requires i <= |a| && j <= |b|
    ensures j == 0 ==> Lev(a[..i], b[..j]) == i
    ensures i == 0 ==> Lev(a[..i], b[..j]) == j
    ensures i >= 1 && j >= 1 ==>
              Lev(a[..i], b[..j]) == Min3(Lev(a[..i], b[..j - 1]) + 1, Lev(a[..i - 1], b[..j]) + 1,
                                          Lev(a[..i - 1], b[..j - 1]) + if a[i - 1] != b[j - 1] then 1 else 0)
  {
    hide Lev;
    if j == 0 {
      assert b[..j] == "";
      LevOfEmpty(a[..i]);
    }
    if i == 0 {
      assert a[..i] == "";
      LevOfEmpty(b[..j]);
    }
    if i >= 1 && j >= 1 {
      assert Front(a[..i]) == a[..i - 1] && Front(b[..j]) == b[..j - 1];
      LevStep(a[..i], b[..j]);
    }
  }

  /** One row of the table, read off the row before it. */
  method FillRow(a: string, b: string, i: nat, prev: array<int>, cur: array<int>) returns (rowMin: int)
    requires 1 <= i <= |a| && prev != cur && prev.Length == cur.Length == |b| + 1
    requires forall j :: 0 <= j <= |b| ==> prev[j] == Lev(a[..i - 1], b[..j])
    modifies cur
    ensures forall j :: 0 <= j <= |b| ==> cur[j] == Lev(a[..i], b[..j])
    ensures forall j :: 0 <= j <= |b| ==> rowMin <= cur[j]
    ensures exists j :: 0 <= j <= |b| && cur[j] == rowMin
  {
    hide Lev;
    Cell(a, b, i, 0);
    cur[0] := i;
    rowMin := cur[0];
    for j := 1 to |b| + 1
      invariant forall k :: 0 <= k < j ==> cur[k] == Lev(a[..i], b[..k])
      invariant forall k :: 0 <= k < j ==> rowMin <= cur[k]
      invariant exists k :: 0 <= k < j && cur[k] == rowMin
    {
      Cell(a, b, i, j);
      var cost := if a[i - 1] != b[j - 1] then 1 else 0;
      var insertion := cur[j - 1] + 1;
      var deletion := prev[j] + 1;
      var substitution := prev[j - 1] + cost;
      cur[j] := Min3(insertion, deletion, substitution);
      if cur[j] < rowMin {
        rowMin := cur[j];
      }
    }
  }

  /** BoundedEditDistance, for every bound including negative ones: the exact
      distance when it is within the bound, and otherwise the distance or the
      bound and one more. */
  method BoundedEditDistance(a: string, b: string, maxDist: int) returns (d: int)
    ensures IsDistance(Lev(a, b), a, b)
    ensures Lev(a, b) <= maxDist ==> d == Lev(a, b)
    ensures Lev(a, b) > maxDist ==> d == Lev(a, b) || d == maxDist + 1
  {
    hide Lev, IsDistance;
    LevIsDistance(a, b);
    LengthGap(a, b);
    LevOfEmpty(a);
    LevOfEmpty(b);
    if a == b {
      LevSame(a);
      return 0;
    }
    var al, bl := |a|, |b|;
    if Abs(al - bl) > maxDist {
      return maxDist + 1;
    }
    if al == 0 {
      return bl;
    }
    if bl == 0 {
      return al;
    }
    var prev, cur := new int[bl + 1], new int[bl + 1];
    for j := 0 to bl + 1
      invariant forall k :: 0 <= k < j ==> prev[k] == Lev(a[..0], b[..k])
    {
      Cell(a, b, 0, j);
      prev[j] := j;
    }
    for i := 1 to al + 1
      invariant prev != cur && prev.Length == cur.Length == bl + 1 && fresh(prev) && fresh(cur)
      invariant forall j :: 0 <= j <= bl ==> prev[j] == Lev(a[..i - 1], b[..j])
    {
      var rowMin := FillRow(a, b, i, prev, cur);
      if rowMin > maxDist {
        RowMinimaGrow(a, b, i, al, bl, maxDist);
        assert a[..al] == a && b[..bl] == b;
        return maxDist + 1;
      }
      prev, cur := cur, prev;
    }
    assert a[..al] == a && b[..bl] == b;
    return prev[bl];
  }
}
