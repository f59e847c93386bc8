/** The pattern language of Go's path/filepath.Match on Unix, as its package
    documentation defines it: a grammar from text to terms, and the relation
    between a list of terms and the names they match. */
module GoPattern {
  import opened Wrappers

  /** One member of a character class; a single character is a span of one. */
  datatype Span = Span(lo: char, hi: char)

  datatype Term =
    | Star
    | AnyChar
    | Class(negated: bool, spans: seq<Span>)
    | Lit(c: char)

  /* ---- Grammar ---- */

  /** One class member: an escaped character, or any character but '-' and ']'. */
  function Member(s: string): (r: Option<(char, string)>)
    ensures r.Some? ==> |r.value.1| < |s|
  {
    if s == "" || s[0] == '-' || s[0] == ']' then None
    else if s[0] != '\\' then Some((s[0], s[1..]))
    else if |s| < 2 then None
    else Some((s[1], s[2..]))
  }

  /** A member, or a range of two members joined by '-'. */
  function Item(s: string): (r: Option<(Span, string)>)
    ensures r.Some? ==> |r.value.1| < |s|
  {
    match Member(s)
    case None => None
    case Some((lo, rest)) =>
      if rest == "" || rest[0] != '-' then Some((Span(lo, lo), rest))
      else match Member(rest[1..])
        case None => None
        case Some((hi, rest')) => Some((Span(lo, hi), rest'))
  }

  /** Items up to and including the closing ']'. */
  function Items(s: string): (r: Option<(seq<Span>, string)>)
    ensures r.Some? ==> |r.value.1| < |s|
    decreases |s|
  {
    if s != "" && s[0] == ']' then Some(([], s[1..]))
    else match Item(s)
      case None => None
      case Some((item, rest)) =>
        match Items(rest)
        case None => None
        case Some((more, rest')) => Some(([item] + more, rest'))
  }

  function Negated(body: string): bool { body != "" && body[0] == '^' }

  function AfterCaret(body: string): string {
    if Negated(body) then body[1..] else body
  }

  /** A class from the text after its '['; a class has at least one item. */
  function ClassTerm(body: string): (r: Option<(Term, string)>)
    ensures r.Some? ==> r.value.0.Class? && |r.value.1| < |body|
  {
    var members := AfterCaret(body);
    if members != "" && members[0] == ']' then None
    else match Items(members)
      case None => None
      case Some((spans, rest)) => Some((Class(Negated(body), spans), rest))
  }

  function FirstTerm(s: string): (r: Option<(Term, string)>)
    requires s != ""
    ensures r.Some? ==> |r.value.1| < |s|
  {
    if s[0] == '*' then Some((Star, s[1..]))
    else if s[0] == '?' then Some((AnyChar, s[1..]))
    else if s[0] == '[' then ClassTerm(s[1..])
    else if s[0] != '\\' then Some((Lit(s[0]), s[1..]))
    else if |s| < 2 then None
    else Some((Lit(s[1]), s[2..]))
  }

  function Parse(s: string): Option<seq<Term>>
    decreases |s|
  {
    if s == "" then Some([])
    else match FirstTerm(s)
      case None => None
      case Some((t, rest)) =>
        match Parse(rest)
        case None => None
        case Some(ts) => Some([t] + ts)
  }

  predicate WellFormed(s: string) { Parse(s).Some? }

  /* ---- Meaning ---- */

  predicate InSpans(c: char, spans: seq<Span>) {
    exists k :: 0 <= k < |spans| && spans[k].lo <= c <= spans[k].hi
  }

  predicate NoSlash(s: string) { '/' !in s }

  /** The characters a one-character term stands for. A class may stand for '/'. */
  predicate Accepts(t: Term, c: char)
    requires !t.Star?
  {
    match t
    case AnyChar => c != '/'
    case Class(negated, spans) => InSpans(c, spans) != negated
    case Lit(x) => c == x
  }

  predicate Matches(ts: seq<Term>, s: string)
    decreases |ts|, 0
  {
    if ts == [] then s == ""
    else if ts[0].Star? then exists k :: 0 <= k <= |s| && StarTakes(ts[1..], s, k)
    else s != "" && Accepts(ts[0], s[0]) && Matches(ts[1..], s[1..])
  }

  /** A star takes the first k characters, none of them '/', and rest matches
      the others. */
  predicate StarTakes(rest: seq<Term>, s: string, k: nat)
    requires k <= |s|
    decreases |rest|, 1
  {
    NoSlash(s[..k]) && Matches(rest, s[k..])
  }
}
