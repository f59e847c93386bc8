/** The class parser drops a member that is exactly U+FFFD. When that changes
    the names a rule stands for, and when it does not. */
module LostMembers {
  import opened Wrappers
  import Go = GoPattern
  import C = RgClass
  import opened GlobAgreement

  /** A class that names U+FFFD by itself and not inside a longer range. */
  predicate Loses(t: Go.Term) {
    t.Class? && Go.InSpans(C.REPLACEMENT, t.spans) && !Go.InSpans(C.REPLACEMENT, C.Kept(t.spans))
  }

  predicate LosesNothing(ts: seq<Go.Term>) {
    forall k :: 0 <= k < |ts| ==> !Loses(ts[k])
  }

  /** Some term stands for no character of a directory name. */
  ghost predicate Barren(ts: seq<Go.Term>) {
    exists k :: 0 <= k < |ts| && !ts[k].Star? && forall c :: c != '/' ==> !Go.Accepts(ts[k], c)
  }

  lemma {:induction false} KeptSpans(spans: seq<Go.Span>, c: char)
    ensures Go.InSpans(c, C.Kept(spans)) ==> Go.InSpans(c, spans)
    ensures c != C.REPLACEMENT && Go.InSpans(c, spans) ==> Go.InSpans(c, C.Kept(spans))
  {
    if spans != [] {
      var head, tail := spans[0], spans[1..];
      KeptSpans(tail, c);
      assert spans == [head] + tail;
      InSpansCons(c, head, tail);
      InSpansCons(c, head, C.Kept(tail));
    }
  }

  lemma InSpansCons(c: char, head: Go.Span, tail: seq<Go.Span>)
    ensures Go.InSpans(c, [head] + tail) <==> head.lo <= c <= head.hi || Go.InSpans(c, tail)
  {
    var all := [head] + tail;
    if head.lo <= c <= head.hi {
      assert all[0] == head;
    }
    if Go.InSpans(c, tail) {
      var k :| 0 <= k < |tail| && tail[k].lo <= c <= tail[k].hi;
      assert all[k + 1] == tail[k];
    }
    if Go.InSpans(c, all) && !(head.lo <= c <= head.hi) {
      var k :| 0 <= k < |all| && all[k].lo <= c <= all[k].hi;
      assert tail[k - 1] == all[k];
    }
  }

  lemma HeardAccepts(t: Go.Term, c: char)
    requires !t.Star?
    ensures !Heard(t).Star?
    ensures c != C.REPLACEMENT || !Loses(t) ==> (Go.Accepts(Heard(t), c) <==> Go.Accepts(t, c))
    ensures c == C.REPLACEMENT && Loses(t) ==> Go.Accepts(Heard(t), c) == t.negated && Go.Accepts(t, c) == !t.negated
  {
    if t.Class? {
      KeptSpans(t.spans, c);
    }
  }

  lemma {:induction false} LosslessMatches(ts: seq<Go.Term>, s: string)
    requires LosesNothing(ts)
    ensures Go.Matches(HeardAll(ts), s) <==> Go.Matches(ts, s)
    decreases |ts|
  {
    if ts != [] {
      assert HeardAll(ts)[1..] == HeardAll(ts[1..]);
      if ts[0].Star? {
        forall k | 0 <= k <= |s|
          ensures Go.StarTakes(HeardAll(ts[1..]), s, k) <==> Go.StarTakes(ts[1..], s, k)
        {
          LosslessMatches(ts[1..], s[k..]);
        }
      } else if s != "" {
        HeardAccepts(ts[0], s[0]);
        LosslessMatches(ts[1..], s[1..]);
      }
    }
  }

  /* ---- Names with one character per term ---- */

  function Singles(ts: seq<Go.Term>): nat {
    if ts == [] then 0 else (if ts[0].Star? then 0 else 1) + Singles(ts[1..])
  }

  lemma {:induction false} NoShorterMatch(ts: seq<Go.Term>, s: string)
    requires Go.Matches(ts, s)
    ensures |s| >= Singles(ts)
    decreases |ts|
  {
    if ts != [] {
      if ts[0].Star? {
        var k := StarElim(ts, s);
        NoShorterMatch(ts[1..], s[k..]);
      } else {
        NoShorterMatch(ts[1..], s[1..]);
      }
    }
  }

  /** w has one character per one-character term, accepted by it, except that
      term number k gets the character pin. */
  ghost predicate Fits(ts: seq<Go.Term>, k: int, pin: char, w: string) {
    if ts == [] then w == ""
    else if ts[0].Star? then Fits(ts[1..], k - 1, pin, w)
    else w != "" && w[0] != '/' && (if k == 0 then w[0] == pin else Go.Accepts(ts[0], w[0]))
         && Fits(ts[1..], k - 1, pin, w[1..])
  }

  lemma {:induction false} FittingName(ts: seq<Go.Term>, k: int, pin: char) returns (w: string)
    requires pin != '/'
    requires forall j :: 0 <= j < |ts| && !ts[j].Star? && j != k ==> exists c :: c != '/' && Go.Accepts(ts[j], c)
    ensures Fits(ts, k, pin, w) && |w| == Singles(ts) && Go.NoSlash(w)
    decreases |ts|
  {
    if ts == [] {
      w := "";
    } else {
      forall j | 0 <= j < |ts[1..]| && !ts[1..][j].Star? && j != k - 1
        ensures exists c :: c != '/' && Go.Accepts(ts[1..][j], c)
      {
        assert ts[1..][j] == ts[j + 1];
      }
      var rest := FittingName(ts[1..], k - 1, pin);
      if ts[0].Star? {
        w := rest;
      } else {
        var c := pin;
        if k != 0 {
          c :| c != '/' && Go.Accepts(ts[0], c);
        }
        w := [c] + rest;
        assert w[1..] == rest;
      }
    }
  }

  predicate SameShape(ts: seq<Go.Term>, us: seq<Go.Term>) {
    |ts| == |us| && forall j :: 0 <= j < |ts| ==> ts[j].Star? == us[j].Star?
  }

  /** Such a name leaves the stars nothing to take, so a match has to accept
      the pinned character. */
  lemma {:induction false} PinAccepted(ts: seq<Go.Term>, us: seq<Go.Term>, k: nat, pin: char, w: string)
    requires Fits(ts, k, pin, w) && |w| == Singles(ts) && SameShape(ts, us)
    requires k < |ts| && !us[k].Star?
    requires Go.Matches(us, w)
    ensures Go.Accepts(us[k], pin)
    decreases |ts|
  {
    if ts[0].Star? {
      var m := StarElim(us, w);
      NoShorterMatch(us[1..], w[m..]);
      SameSingles(ts[1..], us[1..]);
      assert w[m..] == w;
      PinAccepted(ts[1..], us[1..], k - 1, pin, w);
    } else if k > 0 {
      PinAccepted(ts[1..], us[1..], k - 1, pin, w[1..]);
    }
  }

  lemma {:induction false} FittingMatch(ts: seq<Go.Term>, us: seq<Go.Term>, k: int, pin: char, w: string)
    requires Fits(ts, k, pin, w) && SameShape(ts, us)
    requires forall j, c :: 0 <= j < |ts| && j != k && !ts[j].Star? && Go.Accepts(ts[j], c) ==> Go.Accepts(us[j], c)
    requires 0 <= k < |ts| ==> !us[k].Star? && Go.Accepts(us[k], pin)
    ensures Go.Matches(us, w)
    decreases |ts|
  {
    if ts != [] {
      forall j, c | 0 <= j < |ts[1..]| && j != k - 1 && !ts[1..][j].Star? && Go.Accepts(ts[1..][j], c)
        ensures Go.Accepts(us[1..][j], c)
      {
        assert ts[1..][j] == ts[j + 1] && us[1..][j] == us[j + 1];
      }
      if ts[0].Star? {
        FittingMatch(ts[1..], us[1..], k - 1, pin, w);
        StarIntro(us, "", w);
        assert "" + w == w;
      } else {
        FittingMatch(ts[1..], us[1..], k - 1, pin, w[1..]);
      }
    }
  }

  lemma {:induction false} SameSingles(ts: seq<Go.Term>, us: seq<Go.Term>)
    requires SameShape(ts, us)
    ensures Singles(ts) == Singles(us)
    decreases |ts|
  {
    if ts != [] {
      SameSingles(ts[1..], us[1..]);
    }
  }

  /** A pattern text is longer than such a name when it holds a class. */
  lemma {:induction false} TextIsLonger(s: string)
    requires Go.WellFormed(s)
    ensures var ts := Go.Parse(s).value;
            Singles(ts) <= |s| && ((exists k :: 0 <= k < |ts| && ts[k].Class?) ==> Singles(ts) < |s|)
    decreases |s|
  {
    if s != "" {
      var (t, rest) := Go.FirstTerm(s).value;
      TextIsLonger(rest);
      var ts, us := Go.Parse(s).value, Go.Parse(rest).value;
      assert ts == [t] + us && ts[1..] == us;
      if t.Class? {
        ClassTextLength(s[1..]);
      } else if exists k :: 0 <= k < |ts| && ts[k].Class? {
        var k :| 0 <= k < |ts| && ts[k].Class?;
        assert us[k - 1].Class?;
      }
    }
  }

  lemma ClassTextLength(body: string)
    requires Go.ClassTerm(body).Some?
    ensures |Go.ClassTerm(body).value.1| + 2 <= |body|
  {
  }

  /* ---- Exactly when a loss shows ---- */

  lemma HeardShape(ts: seq<Go.Term>)
    ensures SameShape(ts, HeardAll(ts))
  {
  }

  lemma SomeSingle(ts: seq<Go.Term>, k: nat)
    requires k < |ts| && !ts[k].Star?
    ensures Singles(ts) > 0
    decreases k
  {
    if k > 0 {
      SomeSingle(ts[1..], k - 1);
    }
  }

  lemma BarrenMatchesNothing(ts: seq<Go.Term>, s: string)
    requires Barren(ts) && Go.NoSlash(s)
    ensures !Go.Matches(ts, s)
  {
    var b :| 0 <= b < |ts| && !ts[b].Star? && forall c :: c != '/' ==> !Go.Accepts(ts[b], c);
    DeadTerm(ts, b, s);
  }

  lemma LossInBarren(ts: seq<Go.Term>) returns (w: string)
    requires Barren(ts) && !Barren(HeardAll(ts))
    ensures Go.NoSlash(w) && |w| == Singles(ts)
    ensures !Go.Matches(ts, w) && Go.Matches(HeardAll(ts), w)
  {
    var hs := HeardAll(ts);
    HeardShape(ts);
    SameSingles(ts, hs);
    w := FittingName(hs, -1, 'a');
    FittingMatch(hs, hs, -1, 'a', w);
    BarrenMatchesNothing(ts, w);
  }

  lemma LossAtPin(ts: seq<Go.Term>, k: nat) returns (w: string)
    requires !Barren(ts) && k < |ts| && Loses(ts[k])
    requires ts[k].negated ==> forall j :: 0 <= j < |ts| && Loses(ts[j]) ==> ts[j].negated
    ensures Go.NoSlash(w) && |w| == Singles(ts)
    ensures Go.Matches(ts, w) != Go.Matches(HeardAll(ts), w)
  {
    var hs := HeardAll(ts);
    HeardShape(ts);
    HeardAccepts(ts[k], C.REPLACEMENT);
    w := FittingName(ts, k, C.REPLACEMENT);
    if ts[k].negated {
      forall j, c | 0 <= j < |ts| && j != k && !ts[j].Star? && Go.Accepts(ts[j], c)
        ensures Go.Accepts(hs[j], c)
      {
        HeardAccepts(ts[j], c);
      }
      FittingMatch(ts, hs, k, C.REPLACEMENT, w);
      if Go.Matches(ts, w) {
        PinAccepted(ts, ts, k, C.REPLACEMENT, w);
      }
    } else {
      FittingMatch(ts, ts, k, C.REPLACEMENT, w);
      if Go.Matches(hs, w) {
        PinAccepted(ts, hs, k, C.REPLACEMENT, w);
      }
    }
  }

  /** Some directory name separates the pattern from what is heard of it, and
      it is not the pattern's own text. */
  lemma LossShows(pat: string, lost: nat) returns (w: string)
    requires Go.WellFormed(pat)
    requires lost < |Go.Parse(pat).value| && Loses(Go.Parse(pat).value[lost])
    requires !Barren(Go.Parse(pat).value) || !Barren(HeardAll(Go.Parse(pat).value))
    ensures Go.NoSlash(w) && w != "" && w != pat
    ensures Go.Matches(Go.Parse(pat).value, w) != Go.Matches(HeardAll(Go.Parse(pat).value), w)
  {
    var ts := Go.Parse(pat).value;
    TextIsLonger(pat);
    SomeSingle(ts, lost);
    if Barren(ts) {
      w := LossInBarren(ts);
    } else if exists k :: 0 <= k < |ts| && Loses(ts[k]) && !ts[k].negated {
      var k :| 0 <= k < |ts| && Loses(ts[k]) && !ts[k].negated;
      w := LossAtPin(ts, k);
    } else {
      w := LossAtPin(ts, lost);
    }
  }

  /** The heard pattern stands for the same directory names exactly when no
      class loses its U+FFFD, or when neither reading stands for any name. */
  lemma LossExactly(pat: string)
    requires Go.WellFormed(pat)
    ensures var ts := Go.Parse(pat).value;
            (forall s :: Go.NoSlash(s) ==> (Go.Matches(HeardAll(ts), s) <==> Go.Matches(ts, s)))
            <==> LosesNothing(ts) || (Barren(ts) && Barren(HeardAll(ts)))
  {
    var ts := Go.Parse(pat).value;
    if LosesNothing(ts) || (Barren(ts) && Barren(HeardAll(ts))) {
      forall s | Go.NoSlash(s)
        ensures Go.Matches(HeardAll(ts), s) <==> Go.Matches(ts, s)
      {
        if LosesNothing(ts) {
          LosslessMatches(ts, s);
        } else {
          BarrenMatchesNothing(ts, s);
          BarrenMatchesNothing(HeardAll(ts), s);
        }
      }
    } else {
      var lost :| 0 <= lost < |ts| && Loses(ts[lost]);
      var w := LossShows(pat, lost);
    }
  }
}
