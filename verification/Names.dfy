/** Trimming, and the last segment of a reference name. Two separator sets are
    in use: the store splits at a slash as well, the resolver does not. */
module Names {

  // White space as Unicode defines it.
  predicate IsSpace(c: char) {
    || '\t' <= c <= '\r'
    || c in [' ', '\U{85}', '\U{A0}', '\U{1680}', '\U{2028}', '\U{2029}', '\U{202F}', '\U{205F}', '\U{3000}']
    || '\U{2000}' <= c <= '\U{200A}'
  }

  // Where the white space that begins at i ends.
  function SpaceFrom(s: string, i: nat): (n: nat)
    requires i <= |s|
    ensures i <= n <= |s| && forall k :: i <= k < n ==> IsSpace(s[k])
    ensures n < |s| ==> !IsSpace(s[n])
    decreases |s| - i
  {
    if i < |s| && IsSpace(s[i]) then SpaceFrom(s, i + 1) else i
  }

  // Where the white space that ends at j begins.
  function SpaceTo(s: string, j: nat): (n: nat)
    requires j <= |s|
    ensures n <= j && forall k :: n <= k < j ==> IsSpace(s[k])
    ensures n > 0 ==> !IsSpace(s[n - 1])
  {
    if j > 0 && IsSpace(s[j - 1]) then SpaceTo(s, j - 1) else j
  }

  function TrimSpace(s: string): string {
    var left := s[SpaceFrom(s, 0)..];
    left[..SpaceTo(left, |left|)]
  }

  predicate AllSpace(s: string) {
    forall i :: 0 <= i < |s| ==> IsSpace(s[i])
  }

  // Trimming takes off white space and leaves none at either end.
  lemma TrimmedOff(s: string) returns (a: string, b: string)
    ensures s == a + TrimSpace(s) + b && AllSpace(a) && AllSpace(b)
    ensures TrimSpace(s) != "" ==> !IsSpace(TrimSpace(s)[0]) && !IsSpace(TrimSpace(s)[|TrimSpace(s)| - 1])
  {
    hide IsSpace, SpaceFrom, SpaceTo;
    var i := SpaceFrom(s, 0);
    var left := s[i..];
    var j := SpaceTo(left, |left|);
    a, b := s[..i], left[j..];
  }

  // And takes off all the white space there is.
  lemma TrimsTo(a: string, s: string, b: string)
    requires AllSpace(a) && AllSpace(b) && s != "" && !IsSpace(s[0]) && !IsSpace(s[|s| - 1])
    ensures TrimSpace(a + s + b) == s
  {
    hide IsSpace, SpaceFrom, SpaceTo;
    var t := a + s + b;
    var i := SpaceFrom(t, 0);
    assert t[|a|] == s[0];
    assert forall k :: 0 <= k < |a| ==> t[k] == a[k] && IsSpace(t[k]);
    assert i == |a|;
    var left := t[i..];
    assert left == s + b;
    var j := SpaceTo(left, |left|);
    assert left[|s| - 1] == s[|s| - 1];
    assert forall k :: |s| <= k < |left| ==> left[k] == b[k - |s|] && IsSpace(left[k]);
    assert j == |s|;
  }

  lemma NothingToTrim(s: string)
    requires s != "" && !IsSpace(s[0]) && !IsSpace(s[|s| - 1])
    ensures TrimSpace(s) == s
  {
  }

  // The place after the last separator of s, 0 when it has none.
  function AfterLast(s: string, separators: string): (i: nat)
    ensures i <= |s|
    ensures i > 0 ==> s[i - 1] in separators
    ensures forall j :: i <= j < |s| ==> s[j] !in separators
  {
    if s == "" then 0
    else if s[|s| - 1] in separators then |s|
    else AfterLast(s[..|s| - 1], separators)
  }

  // The part after the last separator, the whole name when that part is empty.
  function TailAfter(name: string, separators: string): string {
    var s := TrimSpace(name);
    var i := AfterLast(s, separators);
    if i < |s| then s[i..] else s
  }

  // refNameTail of the store.
  function RefNameTail(name: string): string {
    TailAfter(name, "./#@")
  }

  // nameTail of the resolver.
  function ResolverTail(name: string): string {
    TailAfter(name, ".#@")
  }

  lemma {:induction false} LastAmongMore(s: string)
    ensures AfterLast(s, ".#@") <= AfterLast(s, "./#@")
    ensures AfterLast(s, ".#@") == AfterLast(s, "./#@") <==> '/' !in s[AfterLast(s, ".#@")..]
  {
    var i, j := AfterLast(s, ".#@"), AfterLast(s, "./#@");
    if i < j {
      assert s[j - 1] == s[i..][j - 1 - i];
    }
    if k :| 0 <= k < |s[i..]| && s[i..][k] == '/' {
      assert s[i + k] == '/';
    }
  }

  // The two tails of a name agree exactly when no slash follows its last
  // separator of the other kinds, or it ends in its slash and has no other.
  lemma TailsAgreeExactly(name: string)
    ensures RefNameTail(name) == ResolverTail(name) <==>
              var s := TrimSpace(name);
              var i := AfterLast(s, ".#@");
              '/' !in s[i..] || (s[|s| - 1] == '/' && i == 0)
  {
    var s := TrimSpace(name);
    var i, j := AfterLast(s, ".#@"), AfterLast(s, "./#@");
    LastAmongMore(s);
    if i < j < |s| {
      assert |s[i..]| != |s[j..]|;
    }
    if i < j {
      assert j == |s| <==> s[|s| - 1] == '/';
      assert s[0..] == s;
      assert i > 0 ==> |s[i..]| != |s|;
    }
  }

  lemma TailsOfAPath()
    ensures RefNameTail("a/b") == "b" && ResolverTail("a/b") == "a/b"
  {
    hide TrimSpace;
    NothingToTrim("a/b");
    var s := "a/b";
    assert s[..2] == "a/" && s[..2][..1] == "a" && "a"[..0] == "" && s[2..] == "b" && s[0..] == s;
    assert AfterLast("a", ".#@") == 0 && AfterLast("a/", ".#@") == 0 && AfterLast(s, ".#@") == 0;
    assert AfterLast("a/", "./#@") == 2 && AfterLast(s, "./#@") == 2;
  }
}
