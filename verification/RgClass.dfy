/** Character classes: Go's class text to a member set, and the member set to
    class text that ripgrep's lexer reads back as the same set. */
module RgClass {
  import opened Wrappers
  import Go = GoPattern
  import Rg = RgGlob

  /* ---- Members ---- */

  /** Go's decoding error marker, U+FFFD, which the class parser never keeps as
      a single member. */
  const REPLACEMENT: char := '\U{FFFD}'

  predicate Survives(s: Go.Span) { !(s.lo == REPLACEMENT && s.hi == REPLACEMENT) }

  /** The spans the class parser keeps. */
  function Kept(spans: seq<Go.Span>): seq<Go.Span> {
    if spans == [] then []
    else if Survives(spans[0]) then [spans[0]] + Kept(spans[1..])
    else Kept(spans[1..])
  }

  ghost predicate IsMember(c: char, singles: seq<char>, ranges: seq<Rg.Range>) {
    c in singles || Rg.InRanges(c, ranges)
  }

  predicate Ordered(ranges: seq<Rg.Range>) {
    forall k :: 0 <= k < |ranges| ==> ranges[k].lo <= ranges[k].hi
  }

  predicate Increasing(ranges: seq<Rg.Range>) {
    forall k :: 0 <= k < |ranges| ==> ranges[k].lo < ranges[k].hi
  }

  /** Characters whose position inside a class matters to ripgrep. */
  predicate Sensitive(c: char) { c == ']' || c == '-' || c == '!' || c == '^' }

  predicate Calm(ranges: seq<Rg.Range>) {
    forall k :: 0 <= k < |ranges| ==> !Sensitive(ranges[k].lo) && !Sensitive(ranges[k].hi)
  }

  function AddOnce(singles: seq<char>, c: char): (r: seq<char>)
    ensures forall x :: x in r <==> x in singles || x == c
  {
    if c in singles then singles else singles + [c]
  }

  function AddSingle(singles: seq<char>, c: char, allowSlash: bool): (r: seq<char>)
    ensures forall x :: x in r <==>
              x in singles || (x == c && (allowSlash || c != '/') && c != REPLACEMENT)
  {
    if (!allowSlash && c == '/') || c == REPLACEMENT then singles else AddOnce(singles, c)
  }

  lemma InRangesSnoc(ranges: seq<Rg.Range>, r: Rg.Range)
    ensures forall c :: Rg.InRanges(c, ranges + [r]) <==> Rg.InRanges(c, ranges) || r.lo <= c <= r.hi
  {
    var all := ranges + [r];
    forall c | Rg.InRanges(c, ranges) || r.lo <= c <= r.hi
      ensures Rg.InRanges(c, all)
    {
      if r.lo <= c <= r.hi {
        assert all[|ranges|] == r;
      } else {
        var k :| 0 <= k < |ranges| && ranges[k].lo <= c <= ranges[k].hi;
        assert all[k] == ranges[k];
      }
    }
  }

  lemma IsMemberSnoc(singles: seq<char>, ranges: seq<Rg.Range>, r: Rg.Range)
    ensures forall c :: IsMember(c, singles, ranges + [r]) <==>
                        IsMember(c, singles, ranges) || r.lo <= c <= r.hi
  {
    InRangesSnoc(ranges, r);
  }

  lemma {:induction false} InKeptSnoc(spans: seq<Go.Span>, s: Go.Span)
    ensures Kept(spans + [s]) == if Survives(s) then Kept(spans) + [s] else Kept(spans)
  {
    if spans == [] {
      assert spans + [s] == [s];
      assert Kept([s][1..]) == [];
    } else {
      assert (spans + [s])[1..] == spans[1..] + [s];
      InKeptSnoc(spans[1..], s);
    }
  }

  lemma InSpansSnoc(spans: seq<Go.Span>, s: Go.Span)
    ensures forall c :: Go.InSpans(c, spans + [s]) <==> Go.InSpans(c, spans) || s.lo <= c <= s.hi
  {
    var all := spans + [s];
    forall c | Go.InSpans(c, spans) || s.lo <= c <= s.hi
      ensures Go.InSpans(c, all)
    {
      if s.lo <= c <= s.hi {
        assert all[|spans|] == s;
      } else {
        var k :| 0 <= k < |spans| && spans[k].lo <= c <= spans[k].hi;
        assert all[k] == spans[k];
      }
    }
  }

  lemma KeptStep(spans: seq<Go.Span>, s: Go.Span)
    ensures forall c :: Go.InSpans(c, Kept(spans + [s])) <==>
                        Go.InSpans(c, Kept(spans)) || (Survives(s) && s.lo <= c <= s.hi)
  {
    InKeptSnoc(spans, s);
    InSpansSnoc(Kept(spans), s);
  }

  /* ---- Reading a Go class ---- */

  /** One range of a class: a reversed range vanishes, a one-character range
      becomes a single, and for a bare name a range across '/' is cut in two
      (either half may shrink to one character). */
  method AddRange(lo: char, hi: char, allowSlash: bool, singles: seq<char>, ranges: seq<Rg.Range>)
    returns (singles': seq<char>, ranges': seq<Rg.Range>)
    requires Ordered(ranges)
    ensures Ordered(ranges')
    ensures forall c :: IsMember(c, singles', ranges') <==>
              IsMember(c, singles, ranges)
              || (Survives(Go.Span(lo, hi)) && lo <= c <= hi && (allowSlash || c != '/'))
    ensures ranges <= ranges'
    ensures (exists k :: |ranges| <= k < |ranges'| && ranges'[k].lo == ranges'[k].hi) <==>
              lo < hi && !allowSlash && lo <= '/' <= hi && (lo == '.' || hi == '0')
  {
    singles', ranges' := singles, ranges;
    if lo > hi {
    } else if lo == hi {
      singles' := AddSingle(singles, lo, allowSlash);
    } else if !allowSlash && lo <= '/' && '/' <= hi {
      if lo <= '.' {
        InRangesSnoc(ranges', Rg.Range(lo, '.'));
        ranges' := ranges' + [Rg.Range(lo, '.')];
      }
      if '0' <= hi {
        InRangesSnoc(ranges', Rg.Range('0', hi));
        ranges' := ranges' + [Rg.Range('0', hi)];
      }
      assert lo == '.' ==> ranges'[|ranges|] == Rg.Range('.', '.');
      assert hi == '0' ==> ranges'[|ranges'| - 1] == Rg.Range('0', '0');
    } else {
      InRangesSnoc(ranges', Rg.Range(lo, hi));
      ranges' := ranges' + [Rg.Range(lo, hi)];
    }
  }

  /** One class member at position j, and the position behind it. */
  method ReadMember(body: string, j: nat) returns (c: char, next: nat)
    requires j < |body| && Go.Member(body[j..]).Some?
    ensures j < next <= |body|
    ensures Go.Member(body[j..]) == Some((c, body[next..]))
  {
    if body[j] == '\\' {
      c, next := body[j + 1], j + 2;
    } else {
      c, next := body[j], j + 1;
    }
  }

  /** What the class parser has collected from the items read so far. */
  ghost predicate Collected(singles: seq<char>, ranges: seq<Rg.Range>, spans: seq<Go.Span>, allowSlash: bool) {
    && Ordered(ranges)
    && forall c :: IsMember(c, singles, ranges) <==> Go.InSpans(c, Kept(spans)) && (allowSlash || c != '/')
  }

  /** One item of the class: a member, or two members joined by '-' when the
      '-' is followed by a complete member. */
  method ReadItem(body: string, j: nat, allowSlash: bool, singles: seq<char>, ranges: seq<Rg.Range>,
                  ghost spans: seq<Go.Span>)
    returns (singles': seq<char>, ranges': seq<Rg.Range>, next: nat)
    requires j < |body| && Go.Item(body[j..]).Some?
    requires Collected(singles, ranges, spans, allowSlash)
    ensures j < next <= |body| && Go.Item(body[j..]).value.1 == body[next..]
    ensures Collected(singles', ranges', spans + [Go.Item(body[j..]).value.0], allowSlash)
  {
    KeptStep(spans, Go.Item(body[j..]).value.0);
    var lo, k := ReadMember(body, j);
    if k < |body| && body[k] == '-' && k + 1 < |body| && body[k + 1] != ']'
       && !(body[k + 1] == '\\' && k + 2 >= |body|) {
      assert body[k..][1..] == body[k + 1..];
      var hi: char;
      hi, next := ReadMember(body, k + 1);
      singles', ranges' := AddRange(lo, hi, allowSlash, singles, ranges);
    } else {
      next := k;
      singles', ranges' := AddSingle(singles, lo, allowSlash), ranges;
    }
  }

  /** parseGoClass: the member set of the class that starts at pat[i]. */
  method ParseGoClass(pat: string, i: nat, allowSlash: bool)
    returns (neg: bool, singles: seq<char>, ranges: seq<Rg.Range>, next: nat)
    requires i < |pat| && pat[i] == '[' && Go.ClassTerm(pat[i + 1..]).Some?
    ensures i < next <= |pat|
    ensures Go.ClassTerm(pat[i + 1..]).value.1 == pat[next..]
    ensures neg == Go.ClassTerm(pat[i + 1..]).value.0.negated
    ensures Collected(singles, ranges, Go.ClassTerm(pat[i + 1..]).value.0.spans, allowSlash)
  {
    var body := pat[i + 1..];
    var consumed := 1;
    neg := false;
    if |body| > 0 && body[0] == '^' {
      neg := true;
      body := body[1..];
      consumed := 2;
    }
    ghost var (all, rest) := Go.Items(body).value;
    ghost var seen := 0;
    singles, ranges, next := [], [], |pat|;
    var j := 0;
    while j < |body|
      invariant 0 <= j <= |body| && seen <= |all|
      invariant Go.Items(body[j..]) == Some((all[seen..], rest))
      invariant Collected(singles, ranges, all[..seen], allowSlash)
    {
      if body[j] == ']' {
        assert all[..seen] == all;
        assert rest == body[j + 1..];
        return neg, singles, ranges, i + consumed + j + 1;
      }
      ghost var item := Go.Item(body[j..]).value.0;
      assert item == all[seen..][0] && all[seen..][1..] == all[seen + 1..];
      assert all[..seen] + [item] == all[..seen + 1];
      singles, ranges, j := ReadItem(body, j, allowSlash, singles, ranges, all[..seen]);
      seen := seen + 1;
    }
    // The class closes, so the scan returns from inside the loop.
    assert false;
  }

  /* ---- Position-sensitive endpoints ---- */

  /** normalizeRgRangeEndpoints on one range: peel sensitive endpoints into
      singles until none is left. */
  method PeelRange(range: Rg.Range, singles: seq<char>) returns (singles': seq<char>, rest: Option<Rg.Range>)
    ensures rest.Some? ==> rest.value.lo < rest.value.hi && Calm([rest.value])
    ensures forall c :: c in singles' || (rest.Some? && rest.value.lo <= c <= rest.value.hi) <==>
                        c in singles || range.lo <= c <= range.hi
  {
    var lo, hi := range.lo, range.hi;
    singles' := singles;
    while lo < hi && (Sensitive(lo) || Sensitive(hi))
      invariant forall c :: c in singles' || lo <= c <= hi <==> c in singles || range.lo <= c <= range.hi
      decreases hi as int - lo as int
    {
      if Sensitive(lo) {
        singles' := AddOnce(singles', lo);
        lo := (lo as int + 1) as char;
      } else {
        singles' := AddOnce(singles', hi);
        hi := (hi as int - 1) as char;
      }
    }
    if lo > hi {
      rest := None;
    } else if lo == hi {
      singles' := AddOnce(singles', lo);
      rest := None;
    } else {
      rest := Some(Rg.Range(lo, hi));
    }
  }

  /** normalizeRgRangeEndpoints: same members, strict ranges, calm endpoints. */
  method NormalizeRgRangeEndpoints(singles: seq<char>, ranges: seq<Rg.Range>)
    returns (singles': seq<char>, ranges': seq<Rg.Range>)
    ensures Increasing(ranges') && Calm(ranges')
    ensures forall c :: IsMember(c, singles', ranges') <==> IsMember(c, singles, ranges)
  {
    singles', ranges' := singles, [];
    for k := 0 to |ranges|
      invariant Increasing(ranges') && Calm(ranges')
      invariant forall c :: IsMember(c, singles', ranges') <==> IsMember(c, singles, ranges[..k])
    {
      IsMemberSnoc(singles, ranges[..k], ranges[k]);
      assert ranges[..k + 1] == ranges[..k] + [ranges[k]];
      var more, rest := PeelRange(ranges[k], singles');
      assert forall c :: IsMember(c, more, ranges') ==> c in more || IsMember(c, singles', ranges');
      assert forall c :: IsMember(c, singles', ranges') ==>
                         IsMember(c, more, ranges') || (rest.Some? && rest.value.lo <= c <= rest.value.hi);
      singles' := more;
      if rest.Some? {
        IsMemberSnoc(singles', ranges', rest.value);
        ranges' := ranges' + [rest.value];
      }
    }
    assert ranges[..|ranges|] == ranges;
  }

  /* ---- Writing an rg class ---- */

  /** The text w, read from the start of a class body, has produced exactly rs
      and left the lexer between members. */
  ghost predicate Reads(w: string, rs: seq<Rg.Range>) {
    && (w == "" <==> rs == [])
    && forall t :: Rg.ClassBody(w + t, [], true, false) == Rg.ClassBody(t, rs, rs == [], false)
  }

  lemma ReadsNothing()
    ensures Reads("", [])
  {
    forall t: string
      ensures Rg.ClassBody("" + t, [], true, false) == Rg.ClassBody(t, [], true, false)
    {
      assert "" + t == t;
    }
  }

  lemma ReadsChar(w: string, rs: seq<Rg.Range>, c: char)
    requires Reads(w, rs)
    requires (c != ']' && c != '-') || w == ""
    ensures Reads(w + [c], rs + [Rg.Range(c, c)])
  {
    forall t: string
      ensures Rg.ClassBody(w + [c] + t, [], true, false) == Rg.ClassBody(t, rs + [Rg.Range(c, c)], false, false)
    {
      assert w + [c] + t == w + ([c] + t);
      assert ([c] + t)[1..] == t;
    }
  }

  lemma RangeBody(rs: seq<Rg.Range>, r: Rg.Range, t: string)
    requires r.lo < r.hi && !Sensitive(r.lo) && !Sensitive(r.hi)
    ensures Rg.ClassBody([r.lo, '-', r.hi] + t, rs, rs == [], false) == Rg.ClassBody(t, rs + [r], false, false)
  {
    var one := rs + [Rg.Range(r.lo, r.lo)];
    var x, y, z := [r.lo, '-', r.hi] + t, ['-', r.hi] + t, [r.hi] + t;
    assert x[1..] == y && y[1..] == z && z[1..] == t;
    assert one[..|one| - 1] + [r] == rs + [r];
    assert Rg.ClassBody(z, one, false, true) == Rg.ClassBody(t, rs + [r], false, false);
    assert Rg.ClassBody(y, one, false, false) == Rg.ClassBody(z, one, false, true);
  }

  lemma ReadsRange(w: string, rs: seq<Rg.Range>, r: Rg.Range)
    requires Reads(w, rs)
    requires r.lo < r.hi && Calm([r])
    ensures Reads(w + [r.lo, '-', r.hi], rs + [r])
  {
    assert [r][0] == r;
    forall t: string
      ensures Rg.ClassBody(w + [r.lo, '-', r.hi] + t, [], true, false) == Rg.ClassBody(t, rs + [r], false, false)
    {
      assert w + [r.lo, '-', r.hi] + t == w + ([r.lo, '-', r.hi] + t);
      RangeBody(rs, r, t);
    }
  }

  lemma ReadsClose(w: string, rs: seq<Rg.Range>)
    requires Reads(w, rs) && rs != []
    ensures Rg.ClassBody(w + "]", [], true, false) == Some((rs, ""))
    ensures Rg.ClassBody(w + "-]", [], true, false) == Some((rs + [Rg.Range('-', '-')], ""))
  {
    assert "]"[1..] == "" && "-]"[1..] == "]";
  }

  /** Only '!' and '^' in first position would turn a positive class around. */
  predicate LeadsPlainly(w: string) { w == "" || (w[0] != '!' && w[0] != '^') }

  method WriteSingles(w: string, ghost rs: seq<Rg.Range>, singles: seq<char>)
    returns (w': string, ghost rs': seq<Rg.Range>)
    requires Reads(w, rs) && LeadsPlainly(w)
    ensures Reads(w', rs') && LeadsPlainly(w')
    ensures forall c :: Rg.InRanges(c, rs') <==> Rg.InRanges(c, rs) || (c in singles && !Sensitive(c))
  {
    w', rs' := w, rs;
    for k := 0 to |singles|
      invariant Reads(w', rs') && LeadsPlainly(w')
      invariant forall c :: Rg.InRanges(c, rs') <==> Rg.InRanges(c, rs) || (c in singles[..k] && !Sensitive(c))
    {
      var s := singles[k];
      assert singles[..k + 1] == singles[..k] + [s];
      if !Sensitive(s) {
        ReadsChar(w', rs', s);
        InRangesSnoc(rs', Rg.Range(s, s));
        w', rs' := w' + [s], rs' + [Rg.Range(s, s)];
      }
    }
    assert singles[..|singles|] == singles;
  }

  method WriteRanges(w: string, ghost rs: seq<Rg.Range>, ranges: seq<Rg.Range>)
    returns (w': string, ghost rs': seq<Rg.Range>)
    requires Reads(w, rs) && LeadsPlainly(w)
    requires Increasing(ranges) && Calm(ranges)
    ensures Reads(w', rs') && LeadsPlainly(w')
    ensures forall c :: Rg.InRanges(c, rs') <==> Rg.InRanges(c, rs) || Rg.InRanges(c, ranges)
  {
    w', rs' := w, rs;
    for k := 0 to |ranges|
      invariant Reads(w', rs') && LeadsPlainly(w')
      invariant forall c :: Rg.InRanges(c, rs') <==> Rg.InRanges(c, rs) || Rg.InRanges(c, ranges[..k])
    {
      var r := ranges[k];
      assert ranges[..k + 1] == ranges[..k] + [r];
      InRangesSnoc(ranges[..k], r);
      ReadsRange(w', rs', r);
      InRangesSnoc(rs', r);
      w', rs' := w' + [r.lo, '-', r.hi], rs' + [r];
    }
    assert ranges[..|ranges|] == ranges;
  }

  method WriteChar(w: string, ghost rs: seq<Rg.Range>, c: char) returns (w': string, ghost rs': seq<Rg.Range>)
    requires Reads(w, rs)
    requires (c != ']' && c != '-') || w == ""
    ensures Reads(w', rs') && w' == w + [c]
    ensures forall x :: Rg.InRanges(x, rs') <==> Rg.InRanges(x, rs) || x == c
  {
    ReadsChar(w, rs, c);
    InRangesSnoc(rs, Rg.Range(c, c));
    w', rs' := w + [c], rs + [Rg.Range(c, c)];
  }

  /** A backslash at the end would take the separator the caller appends. */
  predicate Dangles(text: string) { text == "" || text[|text| - 1] == '\\' }

  /** text is one rg token, and it stands for exactly the members, or for
      exactly the others when neg is set. */
  ghost predicate Denotes(text: string, neg: bool, singles: seq<char>, ranges: seq<Rg.Range>) {
    && Rg.WellFormed(text)
    && |Rg.Lex(text).value| == 1
    && Rg.IsSingle(Rg.Lex(text).value[0])
    && forall c :: Rg.Accepts(Rg.Lex(text).value[0], c) <==> IsMember(c, singles, ranges) != neg
  }

  lemma LexBracket(body: string, neg: bool, rs: seq<Rg.Range>)
    requires Rg.ClassBody(body, [], true, false) == Some((rs, ""))
    requires neg || LeadsPlainly(body)
    ensures Rg.Lex((if neg then "[!" else "[") + body) == Some([Rg.One(Rg.Class(neg, rs))])
  {
    var text := (if neg then "[!" else "[") + body;
    if neg {
      assert text[1..] == "!" + body && ("!" + body)[1..] == body;
    } else {
      assert text[1..] == body;
    }
    LexOne(text, Rg.One(Rg.Class(neg, rs)));
  }

  lemma LexOne(text: string, t: Rg.Token)
    requires text != "" && Rg.LexToken(text) == Some((t, ""))
    ensures Rg.Lex(text) == Some([t])
  {
    assert Rg.Lex("") == Some([]);
    assert [t] + [] == [t];
  }

  lemma LexLoneMarks()
    ensures Rg.Lex("\\!") == Some([Rg.One(Rg.Lit('!'))])
    ensures Rg.Lex("\\^") == Some([Rg.One(Rg.Lit('^'))])
    ensures Rg.Lex("{\\!,\\^}") == Some([Rg.Alternates([[Rg.Lit('!')], [Rg.Lit('^')]])])
  {
    assert "\\!"[2..] == "" && "\\^"[2..] == "";
    var both := "{\\!,\\^}";
    assert both[1..] == "\\!,\\^}";
    assert "\\!,\\^}"[2..] == ",\\^}" && ",\\^}"[1..] == "\\^}" && "\\^}"[2..] == "}" && "}"[1..] == "";
    var bang, caret := [Rg.Lit('!')], [Rg.Lit('^')];
    assert [] + bang == bang && [] + caret == caret && [bang] + [caret] == [bang, caret];
    assert [] + [bang] == [bang];
    assert Rg.LexBranches("}", [bang], caret) == Some(([bang, caret], ""));
    assert Rg.LexBranches("\\^}", [bang], []) == Some(([bang, caret], ""));
    assert Rg.LexBranches(",\\^}", [], bang) == Some(([bang, caret], ""));
    assert Rg.LexBranches("\\!,\\^}", [], []) == Some(([bang, caret], ""));
    LexOne("\\!", Rg.One(Rg.Lit('!')));
    LexOne("\\^", Rg.One(Rg.Lit('^')));
    LexOne(both, Rg.Alternates([bang, caret]));
  }

  lemma LoneMarkDenotes(text: string, c: char, singles: seq<char>)
    requires Rg.Lex(text) == Some([Rg.One(Rg.Lit(c))])
    requires forall x :: x in singles <==> x == c
    ensures Denotes(text, false, singles, [])
  {
    var t := Rg.Lex(text).value[0];
    assert forall x :: Rg.Accepts(t, x) <==> x == c;
  }

  lemma BothMarksDenote(text: string, singles: seq<char>)
    requires Rg.Lex(text) == Some([Rg.Alternates([[Rg.Lit('!')], [Rg.Lit('^')]])])
    requires forall x :: x in singles <==> x == '!' || x == '^'
    ensures Denotes(text, false, singles, [])
  {
    var t := Rg.Lex(text).value[0];
    assert t.branches[0][0] == Rg.Lit('!') && t.branches[1][0] == Rg.Lit('^');
    assert forall x :: Rg.Accepts(t, x) <==> x == '!' || x == '^';
  }

  /** The forms a positive class of nothing but '!' and '^' takes; "" when it
      is empty. */
  method EmitLoneMarks(singles: seq<char>) returns (text: string)
    requires forall s :: s in singles ==> s == '!' || s == '^'
    ensures text == "" <==> singles == []
    ensures text != "" ==> Denotes(text, false, singles, []) && !Dangles(text)
  {
    LexLoneMarks();
    assert |singles| > 0 ==> singles[0] in singles;
    if '!' in singles && '^' in singles {
      BothMarksDenote("{\\!,\\^}", singles);
      text := "{\\!,\\^}";
    } else if '!' in singles {
      LoneMarkDenotes("\\!", '!', singles);
      text := "\\!";
    } else if '^' in singles {
      LoneMarkDenotes("\\^", '^', singles);
      text := "\\^";
    } else {
      text := "";
    }
  }

  method CloseClass(w: string, ghost rs: seq<Rg.Range>, dash: bool) returns (w': string, ghost rs': seq<Rg.Range>)
    requires Reads(w, rs) && (w != "" || dash)
    ensures Rg.ClassBody(w', [], true, false) == Some((rs', ""))
    ensures w <= w' && (w == "" ==> w'[0] == '-') && !Dangles(w')
    ensures forall c :: Rg.InRanges(c, rs') <==> Rg.InRanges(c, rs) || (dash && c == '-')
  {
    w', rs' := w, rs;
    if dash && w == "" {
      w', rs' := WriteChar(w, rs, '-');
      ReadsClose(w', rs');
      w' := w' + "]";
    } else if dash {
      ReadsClose(w, rs);
      InRangesSnoc(rs, Rg.Range('-', '-'));
      w', rs' := w + "-]", rs + [Rg.Range('-', '-')];
    } else {
      ReadsClose(w, rs);
      w' := w + "]";
    }
  }

  /** What the bracket form writes before its trailing marks: ']' first, then
      '-' if nothing else may come first, ordinary members, ranges. */
  method OpenClass(minusFirst: bool, singles: seq<char>, ranges: seq<Rg.Range>)
    returns (w: string, ghost rs: seq<Rg.Range>)
    requires Increasing(ranges) && Calm(ranges)
    requires minusFirst ==> ']' !in singles
    ensures Reads(w, rs) && LeadsPlainly(w) && (w == "" <==> rs == [])
    ensures forall c :: Rg.InRanges(c, rs) <==>
              Rg.InRanges(c, ranges) || (minusFirst && c == '-')
              || (c in singles && c != '-' && c != '!' && c != '^')
  {
    w, rs := "", [];
    ReadsNothing();
    if ']' in singles {
      w, rs := WriteChar(w, rs, ']');
    }
    if minusFirst {
      w, rs := WriteChar(w, rs, '-');
    }
    w, rs := WriteSingles(w, rs, singles);
    w, rs := WriteRanges(w, rs, ranges);
  }

  /** Nothing is written before the marks only when there are marks. */
  lemma SomethingOpens(neg: bool, minusFirst: bool, singles: seq<char>, ranges: seq<Rg.Range>,
                       w: string, rs: seq<Rg.Range>)
    requires Increasing(ranges) && (w == "" <==> rs == [])
    requires ranges != [] || exists s :: s in singles && (neg || (s != '!' && s != '^'))
    requires minusFirst <==>
               !neg && '-' in singles && |ranges| == 0 && forall s :: s in singles ==> s != ']' && Sensitive(s)
    requires forall c :: Rg.InRanges(c, rs) <==>
               Rg.InRanges(c, ranges) || (minusFirst && c == '-')
               || (c in singles && c != '-' && c != '!' && c != '^')
    ensures w == "" ==> neg && singles != [] && forall s :: s in singles ==> Sensitive(s) && s != ']'
  {
    if ranges != [] {
      assert Rg.InRanges(ranges[0].lo, ranges) && Rg.InRanges(ranges[0].lo, rs);
    } else {
      if w == "" {
        var s :| s in singles && (neg || (s != '!' && s != '^'));
        assert forall x :: x in singles && (!Sensitive(x) || x == ']') ==> Rg.InRanges(x, rs);
        assert minusFirst ==> Rg.InRanges('-', rs);
      }
    }
  }

  /** The bracket form of a class: the opening, then '!', '^', and '-' last. */
  method EmitBrackets(neg: bool, singles: seq<char>, ranges: seq<Rg.Range>) returns (text: string)
    requires Increasing(ranges) && Calm(ranges)
    requires ranges != [] || exists s :: s in singles && (neg || (s != '!' && s != '^'))
    ensures Denotes(text, neg, singles, ranges) && !Dangles(text)
  {
    hide Rg.Lex, Rg.ClassBody, Reads, Denotes, Rg.InRanges;
    var minusFirst := !neg && '-' in singles && |ranges| == 0 && forall s :: s in singles ==> s != ']' && Sensitive(s);
    var w, rs := OpenClass(minusFirst, singles, ranges);
    SomethingOpens(neg, minusFirst, singles, ranges, w, rs);
    assert w == "" ==> singles[0] in singles;
    if '!' in singles {
      w, rs := WriteChar(w, rs, '!');
    }
    if '^' in singles {
      w, rs := WriteChar(w, rs, '^');
    }
    w, rs := CloseClass(w, rs, '-' in singles && !minusFirst);
    LexBracket(w, neg, rs);
    text := (if neg then "[!" else "[") + w;
    BracketDenotes(text, neg, rs, singles, ranges);
  }

  lemma BracketDenotes(text: string, neg: bool, rs: seq<Rg.Range>, singles: seq<char>, ranges: seq<Rg.Range>)
    requires Rg.Lex(text) == Some([Rg.One(Rg.Class(neg, rs))])
    requires forall c :: Rg.InRanges(c, rs) <==> IsMember(c, singles, ranges)
    ensures Denotes(text, neg, singles, ranges)
  {
    var t := Rg.Lex(text).value[0];
    assert forall c :: Rg.Accepts(t, c) <==> Rg.InRanges(c, rs) != neg;
  }

  /** emitRgClass: fails exactly on the empty class, and otherwise writes text
      that rg reads back as the same member set. */
  method EmitRgClass(neg: bool, singles: seq<char>, ranges: seq<Rg.Range>) returns (text: string, ok: bool)
    ensures ok <==> exists c :: IsMember(c, singles, ranges)
    ensures ok ==> Denotes(text, neg, singles, ranges) && !Dangles(text)
  {
    var singles', ranges' := NormalizeRgRangeEndpoints(singles, ranges);
    assert ranges' != [] ==> IsMember(ranges'[0].lo, singles', ranges');
    assert singles' != [] ==> IsMember(singles'[0], singles', ranges');
    if !neg && |ranges'| == 0 && forall s :: s in singles' ==> s == '!' || s == '^' {
      text := EmitLoneMarks(singles');
      return text, text != "";
    }
    if neg && |singles'| == 0 && |ranges'| == 0 {
      return "", false;
    }
    text := EmitBrackets(neg, singles', ranges');
    ok := true;
  }
}
