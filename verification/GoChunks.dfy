/** Go's matcher cuts a pattern into chunks at the stars outside classes.
    isValidGoPattern checks the chunks one by one; this module proves that the
    chunk check decides the whole grammar. */
module GoChunks {
  import opened Wrappers
  import opened GoPattern

  /** Length of the chunk that starts s, as the scan loop finds it: a backslash
      takes the next character with it, and only brackets move inRange. */
  function ChunkEnd(s: string, inRange: bool): (n: nat)
    ensures n <= |s|
    decreases |s|
  {
    if s == "" then 0
    else if s[0] == '\\' && |s| >= 2 then 2 + ChunkEnd(s[2..], inRange)
    else if s[0] == '[' then 1 + ChunkEnd(s[1..], true)
    else if s[0] == ']' then 1 + ChunkEnd(s[1..], false)
    else if s[0] == '*' && !inRange then 0
    else 1 + ChunkEnd(s[1..], inRange)
  }

  /* ---- What a parse leaves unread does not influence it ---- */

  lemma MemberExtends(u: string, v: string)
    requires Member(u).Some?
    ensures Member(u + v) == Some((Member(u).value.0, Member(u).value.1 + v))
  {
    assert (u + v)[0] == u[0];
    assert (u + v)[1..] == u[1..] + v;
    if u[0] == '\\' {
      assert (u + v)[2..] == u[2..] + v;
    }
  }

  lemma ItemExtends(u: string, v: string)
    requires Item(u).Some? && Item(u).value.1 != ""
    ensures Item(u + v) == Some((Item(u).value.0, Item(u).value.1 + v))
  {
    MemberExtends(u, v);
    var (_, rest) := Member(u).value;
    if rest != "" && rest[0] == '-' {
      MemberExtends(rest[1..], v);
      assert (rest + v)[1..] == rest[1..] + v;
    }
  }

  lemma {:induction false} ItemsExtends(u: string, v: string)
    requires Items(u).Some?
    ensures Items(u + v) == Some((Items(u).value.0, Items(u).value.1 + v))
    decreases |u|
  {
    assert u != "" ==> (u + v)[0] == u[0] && (u + v)[1..] == u[1..] + v;
    if !(u != "" && u[0] == ']') {
      ItemExtends(u, v);
      ItemsExtends(Item(u).value.1, v);
    }
  }

  lemma FirstTermExtends(u: string, v: string)
    requires u != "" && FirstTerm(u).Some?
    ensures FirstTerm(u + v) == Some((FirstTerm(u).value.0, FirstTerm(u).value.1 + v))
  {
    assert (u + v)[0] == u[0];
    assert (u + v)[1..] == u[1..] + v;
    if u[0] == '[' {
      var body := u[1..];
      assert (body + v)[1..] == body[1..] + v;
      assert AfterCaret(body + v) == AfterCaret(body) + v;
      ItemsExtends(AfterCaret(body), v);
    } else if u[0] == '\\' {
      assert (u + v)[2..] == u[2..] + v;
    }
  }

  lemma {:induction false} ParseConcat(u: string, v: string)
    requires WellFormed(u)
    ensures WellFormed(u + v) <==> WellFormed(v)
    ensures WellFormed(v) ==> Parse(u + v).value == Parse(u).value + Parse(v).value
    decreases |u|
  {
    if u == "" {
      assert u + v == v;
    } else {
      FirstTermExtends(u, v);
      ParseConcat(FirstTerm(u).value.1, v);
    }
  }

  /* ---- A term that ends inside u is already there when v is cut off ---- */

  lemma MemberTruncates(u: string, v: string)
    requires Member(u + v).Some? && |Member(u + v).value.1| >= |v|
    ensures Member(u).Some? && Member(u + v) == Some((Member(u).value.0, Member(u).value.1 + v))
  {
    assert u != "";
    MemberExtends(u, v);
  }

  lemma ItemTruncates(u: string, v: string)
    requires Item(u + v).Some? && |Item(u + v).value.1| > |v|
    ensures Item(u).Some? && Item(u).value.1 != ""
    ensures Item(u + v) == Some((Item(u).value.0, Item(u).value.1 + v))
  {
    MemberTruncates(u, v);
    var (_, rest) := Member(u).value;
    if rest == "" {
      assert rest + v == v;
    } else if rest[0] == '-' {
      assert (rest + v)[1..] == rest[1..] + v;
      MemberTruncates(rest[1..], v);
    }
  }

  lemma {:induction false} ItemsTruncates(u: string, v: string)
    requires Items(u + v).Some? && |Items(u + v).value.1| >= |v|
    ensures Items(u).Some? && Items(u + v) == Some((Items(u).value.0, Items(u).value.1 + v))
    decreases |u|
  {
    assert u != "";
    if u[0] == ']' {
      assert (u + v)[1..] == u[1..] + v;
    } else {
      assert (u + v)[0] == u[0];
      ItemTruncates(u, v);
      ItemsTruncates(Item(u).value.1, v);
    }
  }

  lemma FirstTermTruncates(u: string, v: string)
    requires u != "" && FirstTerm(u + v).Some? && |FirstTerm(u + v).value.1| >= |v|
    ensures FirstTerm(u).Some?
    ensures FirstTerm(u + v) == Some((FirstTerm(u).value.0, FirstTerm(u).value.1 + v))
  {
    assert (u + v)[0] == u[0];
    assert (u + v)[1..] == u[1..] + v;
    if u[0] == '[' {
      var body := u[1..];
      assert body != "";
      assert (body + v)[1..] == body[1..] + v && AfterCaret(body + v) == AfterCaret(body) + v;
      ItemsTruncates(AfterCaret(body), v);
      var members := AfterCaret(body);
      assert members != "" ==> (members + v)[0] == members[0];
    } else if u[0] == '\\' {
      assert |u| >= 2 && (u + v)[2..] == u[2..] + v;
    }
  }

  /* ---- The scan follows the terms ---- */

  lemma MemberScan(s: string)
    requires Member(s).Some?
    ensures ChunkEnd(s, true) == |s| - |Member(s).value.1| + ChunkEnd(Member(s).value.1, true)
  {
  }

  lemma ItemScan(s: string)
    requires Item(s).Some?
    ensures ChunkEnd(s, true) == |s| - |Item(s).value.1| + ChunkEnd(Item(s).value.1, true)
  {
    MemberScan(s);
    var (_, rest) := Member(s).value;
    if rest != "" && rest[0] == '-' {
      MemberScan(rest[1..]);
    }
  }

  lemma {:induction false} ItemsScan(s: string)
    requires Items(s).Some?
    ensures ChunkEnd(s, true) == |s| - |Items(s).value.1| + ChunkEnd(Items(s).value.1, false)
    decreases |s|
  {
    if !(s != "" && s[0] == ']') {
      ItemScan(s);
      ItemsScan(Item(s).value.1);
    }
  }

  lemma FirstTermScan(s: string)
    requires s != "" && s[0] != '*' && FirstTerm(s).Some?
    ensures ChunkEnd(s, false) == |s| - |FirstTerm(s).value.1| + ChunkEnd(FirstTerm(s).value.1, false)
  {
    if s[0] == '[' {
      ItemsScan(AfterCaret(s[1..]));
    }
  }

  lemma FirstTermOfChunk(s: string)
    requires s != "" && s[0] != '*' && FirstTerm(s).Some?
    ensures var u, rest := s[..ChunkEnd(s, false)], FirstTerm(s).value.1;
            && u != "" && u[0] == s[0] && FirstTerm(u).Some?
            && FirstTerm(u).value.1 == rest[..ChunkEnd(rest, false)]
  {
    hide ChunkEnd, FirstTerm;
    var n, rest := ChunkEnd(s, false), FirstTerm(s).value.1;
    FirstTermScan(s);
    var u, v := s[..n], s[n..];
    assert u + v == s;
    FirstTermTruncates(u, v);
    assert rest == FirstTerm(u).value.1 + v;
  }

  lemma {:induction false} ChunkOfWellFormed(s: string)
    requires WellFormed(s)
    ensures WellFormed(s[..ChunkEnd(s, false)])
    decreases |s|
  {
    hide FirstTerm;
    if s != "" && s[0] != '*' {
      hide ChunkEnd;
      FirstTermOfChunk(s);
      ChunkOfWellFormed(FirstTerm(s).value.1);
    }
  }

  /** Cutting at the end of the first chunk keeps the verdict on the grammar. */
  lemma ChunkSplit(s: string)
    ensures WellFormed(s) <==>
            WellFormed(s[..ChunkEnd(s, false)]) && WellFormed(s[ChunkEnd(s, false)..])
  {
    var n := ChunkEnd(s, false);
    assert s[..n] + s[n..] == s;
    if WellFormed(s) {
      ChunkOfWellFormed(s);
    }
    if WellFormed(s[..n]) {
      ParseConcat(s[..n], s[n..]);
    }
  }

  /** Stripping the leading stars keeps the verdict on the grammar. */
  method StripStars(s: string) returns (rest: string)
    ensures rest != "" ==> rest[0] != '*'
    ensures |rest| <= |s| && (rest == s || |rest| < |s|)
    ensures WellFormed(s) <==> WellFormed(rest)
  {
    rest := s;
    while |rest| > 0 && rest[0] == '*'
      invariant |rest| <= |s| && (rest == s || |rest| < |s|)
      invariant WellFormed(s) <==> WellFormed(rest)
      decreases |rest|
    {
      rest := rest[1..];
    }
  }

  lemma EmptyChunk(s: string)
    requires s != "" ==> s[0] != '*'
    ensures ChunkEnd(s, false) == 0 <==> s == ""
    ensures s == "" ==> WellFormed(s)
  {
  }

  /** The scan loop of isValidGoPattern. */
  method ChunkLength(rest: string) returns (i: nat)
    ensures i == ChunkEnd(rest, false)
  {
    var inRange := false;
    i := 0;
    while i < |rest|
      invariant 0 <= i <= |rest|
      invariant ChunkEnd(rest, false) == i + ChunkEnd(rest[i..], inRange)
    {
      if rest[i] == '\\' {
        if i + 1 < |rest| {
          assert rest[i..][2..] == rest[i + 2..];
          i := i + 1;
        }
      } else if rest[i] == '[' {
        inRange := true;
      } else if rest[i] == ']' {
        inRange := false;
      } else if rest[i] == '*' && !inRange {
        return;
      }
      i := i + 1;
    }
  }

  /** isValidGoPattern: strip the stars, cut the next chunk, ask the library
      about the chunk alone, go on behind it. The library call is
      filepath.Match(chunk, ""), which on a chunk without a top-level star is
      one syntax pass over the whole chunk. */
  method IsValidGoPattern(pat: string) returns (valid: bool)
    ensures valid <==> WellFormed(pat)
  {
    var rest := pat;
    while |rest| > 0
      invariant WellFormed(pat) <==> WellFormed(rest)
      decreases |rest|
    {
      var body := StripStars(rest);
      var i := ChunkLength(body);
      ChunkSplit(body);
      EmptyChunk(body);
      if i == 0 {
        return |body| == 0;
      }
      if !WellFormed(body[..i]) {
        return false;
      }
      rest := body[i..];
    }
    EmptyChunk(rest);
    return true;
  }
}
