/** Blanking C comments in place (stripCComments in synth_fnptr.go), which line
    numbers computed on the blanked text rest on (lineAt in synthesize.go). */
module CommentBlanker {

  // ---- Where the pieces of the text end ----------------------------------------------------

  // The end of a literal opened by quote q, scanning from i; an unterminated
  // one reaches the end of the text.
  function LiteralEnd(s: string, i: nat, q: char): (n: nat)
    requires i <= |s|
    ensures i <= n <= |s|
    decreases |s| - i
  {
    if i == |s| then i
    else if s[i] == '\\' && i + 1 < |s| then LiteralEnd(s, i + 2, q)
    else if s[i] == q then i + 1
    else LiteralEnd(s, i + 1, q)
  }

  function LineEnd(s: string, i: nat): (n: nat)
    requires i <= |s|
    ensures i <= n <= |s|
    decreases |s| - i
  {
    if i < |s| && s[i] != '\n' then LineEnd(s, i + 1) else i
  }

  // The end of a block comment. An unterminated one leaves out the last byte
  // of the text, which is then read as code.
  function BlockEnd(s: string, i: nat): (n: nat)
    requires i <= |s|
    ensures i <= n <= |s|
    decreases |s| - i
  {
    if i + 1 >= |s| then i
    else if s[i] == '*' && s[i + 1] == '/' then i + 2
    else BlockEnd(s, i + 1)
  }

  predicate Quote(c: char) {
    c == '"' || c == '\''
  }

  predicate Opens(s: string, second: char) {
    |s| >= 2 && s[0] == '/' && s[1] == second
  }

  function Blank(c: char): char {
    if c == '\n' then '\n' else ' '
  }

  function Blanks(s: string): (r: string)
    ensures |r| == |s|
    ensures forall i :: 0 <= i < |s| ==> r[i] == Blank(s[i])
  {
    if s == "" then "" else [Blank(s[0])] + Blanks(s[1..])
  }

  // Where the first piece of the text ends: a literal, a comment, a byte.
  function PieceEnd(s: string): (n: nat)
    requires s != ""
    ensures 0 < n <= |s|
  {
    if Quote(s[0]) then LiteralEnd(s, 1, s[0])
    else if Opens(s, '/') then LineEnd(s, 2)
    else if Opens(s, '*') then BlockEnd(s, 2)
    else 1
  }

  predicate OpensComment(s: string) {
    Opens(s, '/') || Opens(s, '*')
  }

  // The text with every comment blanked and everything else as it was.
  function Stripped(s: string): string
    decreases |s|
  {
    if s == "" then ""
    else
      var n := PieceEnd(s);
      (if OpensComment(s) then Blanks(s[..n]) else s[..n]) + Stripped(s[n..])
  }

  // A reading of the text that meets no comment.
  predicate CommentFree(s: string)
    decreases |s|
  {
    s == "" || (!OpensComment(s) && CommentFree(s[PieceEnd(s)..]))
  }

  // ---- The loops of the code ----------------------------------------------------------------

  // The literal opened at i, copied as it is.
  method CopyLiteral(s: string, i: nat) returns (j: nat, c: string)
    requires i < |s|
    ensures i < j <= |s| && j == i + LiteralEnd(s[i..], 1, s[i]) && c == s[i..j]
  {
    var q := s[i];
    LiteralEndShifts(s, i, 1, q);
    j, c := i + 1, [q];
    while j < |s|
      invariant i < j <= |s| && c == s[i..j]
      invariant LiteralEnd(s, i + 1, q) == LiteralEnd(s, j, q)
    {
      if s[j] == '\\' && j + 1 < |s| {
        c := c + [s[j], s[j + 1]];
        j := j + 2;
      } else if s[j] == q {
        return j + 1, c + [q];
      } else {
        c := c + [s[j]];
        j := j + 1;
      }
    }
  }

  // The line comment opened at i, blanked up to its newline.
  method BlankLineComment(s: string, i: nat) returns (j: nat, c: string)
    requires i + 1 < |s| && s[i] == '/' && s[i + 1] == '/'
    ensures i < j <= |s| && j == i + LineEnd(s[i..], 2) && c == Blanks(s[i..j])
  {
    hide Blanks;
    LineEndShifts(s, i, 2);
    j, c := i + 2, "  ";
    TwoBlanks(s, i);
    while j < |s| && s[j] != '\n'
      invariant i + 2 <= j <= |s| && c == Blanks(s[i..j])
      invariant LineEnd(s, i + 2) == LineEnd(s, j)
    {
      BlanksGrow(s, i, j);
      c := c + " ";
      j := j + 1;
    }
  }

  // The block comment opened at i, blanked with its newlines kept.
  method BlankBlockComment(s: string, i: nat) returns (j: nat, c: string)
    requires i + 1 < |s| && s[i] == '/' && s[i + 1] == '*'
    ensures i < j <= |s| && j == i + BlockEnd(s[i..], 2) && c == Blanks(s[i..j])
  {
    hide Blanks;
    BlockEndShifts(s, i, 2);
    j, c := i + 2, "  ";
    TwoBlanks(s, i);
    while j + 1 < |s| && !(s[j] == '*' && s[j + 1] == '/')
      invariant i + 2 <= j <= |s| && c == Blanks(s[i..j])
      invariant BlockEnd(s, i + 2) == BlockEnd(s, j)
    {
      BlanksGrow(s, i, j);
      c := c + if s[j] == '\n' then "\n" else " ";
      j := j + 1;
    }
    if j + 1 < |s| {
      BlanksGrow(s, i, j);
      BlanksGrow(s, i, j + 1);
      c := c + "  ";
      j := j + 2;
    }
  }

  method StripCComments(s: string) returns (b: string)
    ensures b == Stripped(s)
  {
    hide Blanks, LiteralEnd, LineEnd, BlockEnd, Stripped;
    b := "";
    var i := 0;
    assert s[0..] == s;
    while i < |s|
      invariant 0 <= i <= |s|
      invariant Stripped(s) == b + Stripped(s[i..])
    {
      var j, c;
      if s[i] == '"' || s[i] == '\'' {
        j, c := CopyLiteral(s, i);
      } else if i + 1 < |s| && s[i] == '/' && s[i + 1] == '/' {
        j, c := BlankLineComment(s, i);
      } else if i + 1 < |s| && s[i] == '/' && s[i + 1] == '*' {
        j, c := BlankBlockComment(s, i);
      } else {
        j, c := i + 1, [s[i]];
      }
      StrippedFrom(s, i, j);
      assert b + (c + Stripped(s[j..])) == (b + c) + Stripped(s[j..]);
      b := b + c;
      i := j;
    }
    StrippedEnd(s);
  }

  lemma FirstPiece(s: string)
    requires s != ""
    ensures Stripped(s) == (if OpensComment(s) then Blanks(s[..PieceEnd(s)]) else s[..PieceEnd(s)])
                      + Stripped(s[PieceEnd(s)..])
  {
    hide Blanks, PieceEnd, OpensComment;
  }

  lemma StrippedFrom(s: string, i: nat, j: nat)
    requires i < j <= |s| && j == i + PieceEnd(s[i..])
    ensures Stripped(s[i..]) == (if OpensComment(s[i..]) then Blanks(s[i..j]) else s[i..j]) + Stripped(s[j..])
  {
    hide Blanks, PieceEnd, OpensComment, Stripped;
    FirstPiece(s[i..]);
    assert s[i..][..j - i] == s[i..j] && s[i..][j - i..] == s[j..];
  }

  lemma StrippedEnd(s: string)
    ensures Stripped(s[|s|..]) == ""
  {
  }

  lemma TwoBlanks(s: string, i: nat)
    requires i + 1 < |s| && s[i] != '\n' && s[i + 1] != '\n'
    ensures Blanks(s[i..i + 2]) == "  "
  {
  }

  lemma {:induction false} LiteralEndShifts(s: string, at: nat, i: nat, q: char)
    requires at + i <= |s|
    ensures LiteralEnd(s[at..], i, q) == LiteralEnd(s, at + i, q) - at
    decreases |s| - i
  {
    if at + i < |s| {
      if s[at + i] == '\\' && at + i + 1 < |s| {
        LiteralEndShifts(s, at, i + 2, q);
      } else if s[at + i] != q {
        LiteralEndShifts(s, at, i + 1, q);
      }
    }
  }

  lemma {:induction false} LineEndShifts(s: string, at: nat, i: nat)
    requires at + i <= |s|
    ensures LineEnd(s[at..], i) == LineEnd(s, at + i) - at
    decreases |s| - i
  {
    if at + i < |s| && s[at + i] != '\n' {
      LineEndShifts(s, at, i + 1);
    }
  }

  lemma {:induction false} BlockEndShifts(s: string, at: nat, i: nat)
    requires at + i <= |s|
    ensures BlockEnd(s[at..], i) == BlockEnd(s, at + i) - at
    decreases |s| - i
  {
    if at + i + 1 < |s| && !(s[at + i] == '*' && s[at + i + 1] == '/') {
      BlockEndShifts(s, at, i + 1);
    }
  }

  lemma BlanksGrow(s: string, i: nat, j: nat)
    requires i <= j < |s|
    ensures Blanks(s[i..j + 1]) == Blanks(s[i..j]) + [Blank(s[j])]
  {
  }

  // ---- What the blanked text keeps --------------------------------------------------------------

  // Length and every newline stay; any other byte stays or becomes a space.
  lemma {:induction false} StrippedKeepsPlaces(s: string)
    ensures |Stripped(s)| == |s|
    ensures forall i :: 0 <= i < |s| ==> Stripped(s)[i] == s[i] || (Stripped(s)[i] == ' ' && s[i] != '\n')
    decreases |s|
  {
    hide Blanks, LiteralEnd, LineEnd, BlockEnd;
    if s != "" {
      var n := PieceEnd(s);
      StrippedKeepsPlaces(s[n..]);
      forall i | 0 <= i < |s|
        ensures Stripped(s)[i] == s[i] || (Stripped(s)[i] == ' ' && s[i] != '\n')
      {
        if i >= n {
          assert s[i] == s[n..][i - n];
        }
      }
    }
  }

  function Newlines(s: string): nat {
    if s == "" then 0 else Newlines(s[..|s| - 1]) + if s[|s| - 1] == '\n' then 1 else 0
  }

  // lineAt of synthesize.go.
  function LineAt(content: string, byteIdx: int): int {
    if byteIdx <= 0 then 1
    else Newlines(content[..if byteIdx > |content| then |content| else byteIdx]) + 1
  }

  lemma {:induction false} SameNewlines(a: string, b: string)
    requires |a| == |b| && forall i :: 0 <= i < |a| ==> (a[i] == '\n' <==> b[i] == '\n')
    ensures Newlines(a) == Newlines(b)
  {
    if a != "" {
      SameNewlines(a[..|a| - 1], b[..|b| - 1]);
    }
  }

  lemma {:induction false} NewlinesCount(s: string)
    ensures Newlines(s) == |set i | 0 <= i < |s| && s[i] == '\n'|
  {
    var places := set i | 0 <= i < |s| && s[i] == '\n';
    if s == "" {
      assert places == {};
    } else {
      var n := |s| - 1;
      NewlinesCount(s[..n]);
      var before := set i | 0 <= i < |s[..n]| && s[..n][i] == '\n';
      assert places == before + if s[n] == '\n' then {n} else {};
    }
  }

  // The line of an offset is one more than the newlines before it; the first
  // for offsets below the text, the last for those beyond.
  lemma LineAtCounts(content: string, byteIdx: int)
    ensures LineAt(content, byteIdx) == |set i | 0 <= i < |content| && i < byteIdx && content[i] == '\n'| + 1
  {
    var n := if byteIdx <= 0 then 0 else if byteIdx > |content| then |content| else byteIdx;
    NewlinesCount(content[..n]);
    assert (set i | 0 <= i < |content| && i < byteIdx && content[i] == '\n')
        == set i | 0 <= i < |content[..n]| && content[..n][i] == '\n';
    assert n == 0 ==> content[..n] == "";
  }

  // A line number taken on the blanked text is the one in the source, at every
  // offset, in range or not.
  lemma LineNumbersAgree(s: string, byteIdx: int)
    ensures LineAt(Stripped(s), byteIdx) == LineAt(s, byteIdx)
  {
    StrippedKeepsPlaces(s);
    if byteIdx > 0 {
      var n := if byteIdx > |s| then |s| else byteIdx;
      SameNewlines(Stripped(s)[..n], s[..n]);
    }
  }

  // ---- What closes a literal, and what the pieces are --------------------------------------------

  // How many backslashes stand before position k, counted back to i.
  function BackslashesBefore(s: string, i: nat, k: nat): nat
    requires k <= |s|
  {
    if k > i && s[k - 1] == '\\' then 1 + BackslashesBefore(s, i, k - 1) else 0
  }

  // A quote that an even number of backslashes stands before, none included.
  predicate Closes(s: string, i: nat, q: char, k: int) {
    i <= k < |s| && s[k] == q && BackslashesBefore(s, i, k) % 2 == 0
  }

  lemma {:induction false} BackslashesShift(s: string, i: nat, j: nat, k: nat)
    requires i <= j <= k <= |s|
    ensures BackslashesBefore(s, i, k)
         == if BackslashesBefore(s, j, k) == k - j then BackslashesBefore(s, i, j) + (k - j)
            else BackslashesBefore(s, j, k)
    ensures BackslashesBefore(s, j, k) <= k - j
  {
    if j < k {
      BackslashesShift(s, i, j, k - 1);
    }
  }

  // A literal ends right behind the first quote of its kind that no backslash
  // escapes, or with the text.
  lemma {:induction false} LiteralClosesFirst(s: string, i: nat, q: char)
    requires i <= |s| && q != '\\'
    ensures var n := LiteralEnd(s, i, q);
            && (forall k :: i <= k < n - 1 ==> !Closes(s, i, q, k))
            && ((n > i && Closes(s, i, q, n - 1)) || (n == |s| && forall k :: i <= k < |s| ==> !Closes(s, i, q, k)))
    decreases |s| - i
  {
    if i < |s| {
      var j := if s[i] == '\\' && i + 1 < |s| then i + 2 else i + 1;
      assert BackslashesBefore(s, i, i) == 0;
      assert BackslashesBefore(s, i, i + 1) == if s[i] == '\\' then 1 else 0;
      assert j == i + 2 ==> BackslashesBefore(s, i, j) == if s[i + 1] == '\\' then 2 else 0;
      if j > i + 1 || s[i] != q {
        LiteralClosesFirst(s, j, q);
        forall k | j <= k < |s|
          ensures Closes(s, i, q, k) <==> Closes(s, j, q, k)
        {
          BackslashesShift(s, i, j, k);
        }
        forall k | i <= k < j
          ensures !Closes(s, i, q, k)
        {
        }
      }
    }
  }

  lemma {:induction false} LineEndsFirst(s: string, i: nat)
    requires i <= |s|
    ensures var n := LineEnd(s, i);
            (forall k :: i <= k < n ==> s[k] != '\n') && (n < |s| ==> s[n] == '\n')
    decreases |s| - i
  {
    if i < |s| && s[i] != '\n' {
      LineEndsFirst(s, i + 1);
    }
  }

  predicate ClosesBlock(s: string, k: int) {
    0 <= k < |s| - 1 && s[k] == '*' && s[k + 1] == '/'
  }

  // A block comment ends right behind its first closing mark, and one byte
  // before the end of the text when there is none.
  lemma {:induction false} BlockClosesFirst(s: string, i: nat)
    requires i <= |s|
    ensures var n := BlockEnd(s, i);
            && (forall k :: i <= k < n - 2 ==> !ClosesBlock(s, k))
            && ((n >= i + 2 && ClosesBlock(s, n - 2))
                || ((forall k :: i <= k ==> !ClosesBlock(s, k)) && n == if i == |s| then i else |s| - 1))
    decreases |s| - i
  {
    if i + 1 < |s| && !(s[i] == '*' && s[i + 1] == '/') {
      BlockClosesFirst(s, i + 1);
    }
  }

  // The text is read from the left: a string or a character literal stays, a
  // comment is blanked, any other byte stays, and the rest follows.
  lemma PiecesInTurn(s: string)
    requires s != ""
    ensures s[0] == '"' || s[0] == '\'' ==>
              Stripped(s) == s[..LiteralEnd(s, 1, s[0])] + Stripped(s[LiteralEnd(s, 1, s[0])..])
    ensures |s| >= 2 && s[0] == '/' && s[1] == '/' ==>
              Stripped(s) == Blanks(s[..LineEnd(s, 2)]) + Stripped(s[LineEnd(s, 2)..])
    ensures |s| >= 2 && s[0] == '/' && s[1] == '*' ==>
              Stripped(s) == Blanks(s[..BlockEnd(s, 2)]) + Stripped(s[BlockEnd(s, 2)..])
    ensures s[0] != '"' && s[0] != '\'' && (s[0] != '/' || |s| < 2 || (s[1] != '/' && s[1] != '*')) ==>
              Stripped(s) == s[..1] + Stripped(s[1..])
  {
    hide Blanks, LiteralEnd, LineEnd, BlockEnd;
  }

  // ---- No comment is left ---------------------------------------------------------------------------

  lemma {:induction false} LiteralEndByPrefix(s: string, t: string, i: nat, q: char, n: nat)
    requires i <= n <= |s| && n <= |t| && s[..n] == t[..n] && LiteralEnd(s, i, q) == n
    requires n == |s| ==> |t| == |s|
    ensures LiteralEnd(t, i, q) == n
    decreases |s| - i
  {
    if i < n {
      assert t[i] == t[..n][i] && s[i] == s[..n][i];
      if s[i] == '\\' && i + 1 < |s| {
        LiteralEndByPrefix(s, t, i + 2, q, n);
      } else if s[i] != q {
        LiteralEndByPrefix(s, t, i + 1, q, n);
      }
    }
  }

  lemma {:induction false} BlanksAreFree(b: string, rest: string)
    requires CommentFree(rest) && forall i :: 0 <= i < |b| ==> b[i] == ' ' || b[i] == '\n'
    ensures CommentFree(b + rest)
  {
    if b != "" {
      BlanksAreFree(b[1..], rest);
      assert (b + rest)[1..] == b[1..] + rest;
    } else {
      assert b + rest == rest;
    }
  }

  // What is left does not start a comment where the source did not.
  lemma FirstByteStays(s: string)
    requires s != ""
    ensures Stripped(s) != "" && (Stripped(s)[0] == s[0] || Stripped(s)[0] == ' ')
  {
    StrippedKeepsPlaces(s);
  }

  lemma {:induction false} StrippedIsCommentFree(s: string)
    ensures CommentFree(Stripped(s))
    decreases |s|
  {
    hide Blanks, LiteralEnd, LineEnd, BlockEnd;
    if s != "" {
      var n := PieceEnd(s);
      var rest := Stripped(s[n..]);
      StrippedIsCommentFree(s[n..]);
      StrippedKeepsPlaces(s[n..]);
      var t := Stripped(s);
      if OpensComment(s) {
        BlanksAreFree(Blanks(s[..n]), rest);
      } else {
        assert t == s[..n] + rest && t[..n] == s[..n] && t[n..] == rest && t[0] == s[0];
        if Quote(s[0]) {
          LiteralEndByPrefix(s, t, 1, s[0], n);
        } else if n < |s| {
          FirstByteStays(s[n..]);
          assert t[1] == rest[0] && s[1] == s[n..][0];
        }
      }
    }
  }

  lemma {:induction false} NothingToStrip(s: string)
    requires CommentFree(s)
    ensures Stripped(s) == s
    decreases |s|
  {
    if s != "" {
      NothingToStrip(s[PieceEnd(s)..]);
      assert s[..PieceEnd(s)] + s[PieceEnd(s)..] == s;
    }
  }

  lemma StrippingTwiceIsStrippingOnce(s: string)
    ensures Stripped(Stripped(s)) == Stripped(s)
  {
    StrippedIsCommentFree(s);
    NothingToStrip(Stripped(s));
  }

  // ---- The comment that is not closed ---------------------------------------------------------

  lemma {:induction false} OpenBlockEnd(s: string, i: nat)
    requires i <= |s| && forall j :: i <= j < |s| - 1 ==> !(s[j] == '*' && s[j + 1] == '/')
    ensures BlockEnd(s, i) == if i == |s| then i else |s| - 1
    decreases |s| - i
  {
    if i + 1 < |s| {
      OpenBlockEnd(s, i + 1);
    }
  }

  // Of a block comment that the text does not close everything is blanked but
  // the last byte, which stays: the whole of it is blank exactly when nothing
  // follows the opening or that byte is blank already.
  lemma UnclosedKeepsItsLastByte(s: string)
    requires Opens(s, '*') && forall j :: 2 <= j < |s| - 1 ==> !(s[j] == '*' && s[j + 1] == '/')
    ensures |s| > 2 ==> Stripped(s) == Blanks(s[..|s| - 1]) + [s[|s| - 1]]
    ensures Stripped(s) == Blanks(s) <==> |s| == 2 || s[|s| - 1] in [' ', '\n']
  {
    hide Blanks, Stripped, LiteralEnd, LineEnd;
    OpenBlockEnd(s, 2);
    FirstPiece(s);
    if |s| == 2 {
      assert s[..2] == s && s[2..] == "";
      NothingStripped();
    } else {
      assert s[|s| - 1..] == [s[|s| - 1]];
      OneByteStays(s[|s| - 1]);
      LastByteDecides(s, Stripped(s));
    }
  }

  lemma NothingStripped()
    ensures Stripped("") == ""
  {
  }

  lemma OneByteStays(c: char)
    ensures Stripped([c]) == [c]
  {
    assert [c][1..] == "" && [c][..1] == [c];
  }

  lemma LastByteDecides(s: string, r: string)
    requires |s| > 0 && r == Blanks(s[..|s| - 1]) + [s[|s| - 1]]
    ensures r == Blanks(s) <==> s[|s| - 1] in [' ', '\n']
  {
    hide Blanks;
    var n := |s| - 1;
    BlanksGrow(s, 0, n);
    assert s[0..n] == s[..n] && s[0..n + 1] == s;
    var c := s[n];
    assert r == Blanks(s[..n]) + [c] && Blanks(s) == Blanks(s[..n]) + [Blank(c)];
    assert r[n] == c && Blanks(s)[n] == Blank(c);
  }
}
