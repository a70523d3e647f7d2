/** The fixed marker patterns of a described pull request body, as matchers over positions.  Each
    stands for one regular expression; none of them can match in two ways at one position. */
module Markers {
  import opened Prelude

  const GENERATED_OPEN_PREFIX := "<!-- prxref:generated "
  const GENERATED_CLOSE := "<!-- /prxref:generated -->"
  const ORIGINAL_OPEN := "<!-- prxref:original v1 -->"
  const ORIGINAL_CLOSE := "<!-- /prxref:original -->"
  const DETAILS_OPEN := "<details>" + "<summary>Original description</summary>"
  const DETAILS_CLOSE := "</details>"

  /** White space as `str.strip` and `\s` read it. */
  predicate IsSpace(c: char) {
    || c == ' ' || '\t' <= c <= '\r' || ('\U{1c}' <= c <= '\U{1f}') || c == '\U{85}' || c == '\U{a0}'
    || c == '\U{1680}' || ('\U{2000}' <= c <= '\U{200a}') || c == '\U{2028}' || c == '\U{2029}'
    || c == '\U{202f}' || c == '\U{205f}' || c == '\U{3000}'
  }

  predicate IsDigit(c: char) {
    '0' <= c <= '9'
  }

  /** `lit` stands in `text` at `i`. */
  predicate At(text: string, i: nat, lit: string) {
    i + |lit| <= |text| && forall k :: i <= k < i + |lit| ==> text[k] == lit[k - i]
  }

  /** The end of the longest run of characters from `i` on that satisfy `p`. */
  function RunEnd(text: string, i: nat, p: char -> bool): (r: nat)
    requires i <= |text|
    ensures i <= r <= |text|
    ensures forall k :: i <= k < r ==> p(text[k])
    ensures r < |text| ==> !p(text[r])
    decreases |text| - i
  {
    if i < |text| && p(text[i]) then RunEnd(text, i + 1, p) else i
  }

  predicate NotSpace(c: char) {
    !IsSpace(c)
  }

  predicate Blank(c: char) {
    c == ' ' || c == '\t'
  }

  /** `\r?\n` */
  function NewlineEnd(text: string, i: nat): (r: Option<nat>)
    ensures r.Some? ==> i < r.value <= |text|
  {
    if i < |text| && text[i] == '\n' then Some(i + 1)
    else if i + 1 < |text| && text[i] == '\r' && text[i + 1] == '\n' then Some(i + 2)
    else None
  }

  /** `(?:\r?\n)*` */
  function NewlinesEnd(text: string, i: nat): (r: nat)
    requires i <= |text|
    ensures i <= r <= |text|
    decreases |text| - i
  {
    match NewlineEnd(text, i)
    case None => i
    case Some(e) => NewlinesEnd(text, e)
  }

  /** The groups of an opening comment: version, head and time. */
  datatype Header = Header(version: string, head: string, at: string)

  datatype Match = Match(start: nat, end: nat, groups: Option<Header>)

  type Matcher = (string, nat) -> Option<Match>

  /** A non-empty `\S+` or `\d+` group at `i` followed by `next`: the end of the group. */
  function GroupThen(text: string, i: nat, p: char -> bool, next: string): (r: Option<nat>)
    ensures r.Some? ==> i < r.value && r.value + |next| <= |text|
  {
    if i > |text| then None
    else
      var e := RunEnd(text, i, p);
      if e > i && At(text, e, next) then Some(e) else None
  }

  /** Where the version, the head and the time of an opening comment end. */
  datatype Fields = Fields(version: nat, head: nat, at: nat)

  type EndMatcher = (string, nat) -> Option<nat>

  function VersionAt(text: string, i: nat): (r: Option<nat>)
    ensures r.Some? ==> i < r.value && r.value + 6 <= |text|
  {
    GroupThen(text, i, IsDigit, " head=")
  }

  function HeadAt(text: string, i: nat): (r: Option<nat>)
    ensures r.Some? ==> i < r.value && r.value + 4 <= |text|
  {
    GroupThen(text, i, NotSpace, " at=")
  }

  function TimeAt(text: string, i: nat): (r: Option<nat>)
    ensures r.Some? ==> i < r.value && r.value + 4 <= |text|
  {
    GroupThen(text, i, NotSpace, " -->")
  }

  function FieldsBy(version: EndMatcher, head: EndMatcher, at: EndMatcher, text: string, i: nat): Option<Fields> {
    match version(text, i)
    case None => None
    case Some(d) =>
      match head(text, d + 6)
      case None => None
      case Some(h) =>
        match at(text, h + 4)
        case None => None
        case Some(a) => Some(Fields(d, h, a))
  }

  /** `\d+ head=(\S+) at=(\S+) -->`, from the digits on. */
  function OpenFields(text: string, i: nat): (r: Option<Fields>)
    ensures r.Some? ==> i < r.value.version && r.value.version + 6 < r.value.head
                        && r.value.head + 4 < r.value.at && r.value.at + 4 <= |text|
  {
    FieldsBy(VersionAt, HeadAt, TimeAt, text, i)
  }

  function FieldGroups(text: string, v: nat, f: Fields): Header
    requires v <= f.version && f.version + 6 <= f.head && f.head + 4 <= f.at <= |text|
  {
    Header(text[v..f.version], text[f.version + 6..f.head], text[f.head + 4..f.at])
  }

  /** What an opening comment at `i` holds behind its prefix, from the version at `v` on. */
  function OpenBehind(text: string, i: nat, v: nat): (r: Option<Match>)
    requires i < v
    ensures r.Some? ==> r.value.start == i < r.value.end <= |text| && r.value.groups.Some?
  {
    match OpenFields(text, v + 1)
    case None => None
    case Some(f) =>
      match NewlineEnd(text, f.at + 4)
      case None => None
      case Some(e) => Some(Match(i, e, Some(FieldGroups(text, v, f))))
  }

  /** `<!-- prxref:generated (v\d+) head=(\S+) at=(\S+) -->\r?\n` */
  function GeneratedOpenAt(text: string, i: nat): (r: Option<Match>)
    ensures r.Some? ==> r.value.start == i < r.value.end <= |text| && r.value.groups.Some?
  {
    var v := i + |GENERATED_OPEN_PREFIX|;
    if !At(text, i, GENERATED_OPEN_PREFIX) || v >= |text| || text[v] != 'v' then None
    else OpenBehind(text, i, v)
  }

  /** `\r?\n<!-- /prxref:generated -->` */
  function GeneratedCloseAt(text: string, i: nat): (r: Option<Match>)
    ensures r.Some? ==> r.value.start == i < r.value.end <= |text|
  {
    match NewlineEnd(text, i)
    case None => None
    case Some(e) => if At(text, e, GENERATED_CLOSE) then Some(Match(i, e + |GENERATED_CLOSE|, None)) else None
  }

  /** Where the original-open comment of a section starting at `i` would stand: behind the optional
      details line and its newlines, or at `i`. */
  function SectionOpen(text: string, i: nat): (r: nat)
    ensures r >= i
  {
    if At(text, i, DETAILS_OPEN) then
      var k := NewlinesEnd(text, RunEnd(text, i + |DETAILS_OPEN|, Blank));
      if At(text, k, ORIGINAL_OPEN) then k else i
    else i
  }

  /** `(?:<details>...</summary>[ \t]*(?:\r?\n)*)?<!-- prxref:original v1 -->\r?\n` */
  function OriginalOpenAt(text: string, i: nat): (r: Option<Match>)
    ensures r.Some? ==> r.value.start == i < r.value.end <= |text|
  {
    var b := SectionOpen(text, i);
    if !At(text, b, ORIGINAL_OPEN) then None
    else
      match NewlineEnd(text, b + |ORIGINAL_OPEN|)
      case None => None
      case Some(e) => Some(Match(i, e, None))
  }

  /** The end of an optional `\s*</details>` at `e`. */
  function SectionEnd(text: string, e: nat): (r: nat)
    requires e <= |text|
    ensures e <= r <= |text|
  {
    var j := RunEnd(text, e, IsSpace);
    if At(text, j, DETAILS_CLOSE) then j + |DETAILS_CLOSE| else e
  }

  /** `\r?\n<!-- /prxref:original -->(?:\s*</details>)?` */
  function OriginalCloseAt(text: string, i: nat): (r: Option<Match>)
    ensures r.Some? ==> r.value.start == i < r.value.end <= |text|
  {
    match NewlineEnd(text, i)
    case None => None
    case Some(e) =>
      if At(text, e, ORIGINAL_CLOSE) then Some(Match(i, SectionEnd(text, e + |ORIGINAL_CLOSE|), None)) else None
  }

  /** A matcher that reports the position it was asked about and consumes something. */
  ghost predicate Proper(m: Matcher) {
    forall text: string, i: nat :: m(text, i).Some? ==>
      m(text, i).value.start == i && i < m(text, i).value.end <= |text|
  }

  /** `re.search`: the leftmost match at or after `pos`. */
  function Search(m: Matcher, text: string, pos: nat): Option<Match>
    decreases |text| - pos
  {
    if pos > |text| then None
    else if m(text, pos).Some? then m(text, pos)
    else Search(m, text, pos + 1)
  }

  lemma {:induction false} SearchFinds(m: Matcher, text: string, pos: nat)
    requires Proper(m)
    ensures Search(m, text, pos).Some? ==>
              var r := Search(m, text, pos).value;
              pos <= r.start < r.end <= |text| && m(text, r.start) == Some(r)
    decreases |text| - pos
  {
    if pos <= |text| && m(text, pos).None? { SearchFinds(m, text, pos + 1); }
  }

  /** Nothing matches before what the search found. */
  lemma {:induction false} SearchIsFirst(m: Matcher, text: string, pos: nat, j: nat)
    requires pos <= j <= |text| && m(text, j).Some? && Proper(m)
    ensures Search(m, text, pos).Some? && Search(m, text, pos).value.start <= j
    decreases |text| - pos
  {
    if pos < j && m(text, pos).None? { SearchIsFirst(m, text, pos + 1, j); }
  }

  lemma {:induction false} SearchIs(m: Matcher, text: string, pos: nat, i: nat)
    requires pos <= i <= |text| && m(text, i).Some? && forall j :: pos <= j < i ==> m(text, j).None?
    ensures Search(m, text, pos) == m(text, i)
    decreases i - pos
  {
    if pos < i { SearchIs(m, text, pos + 1, i); }
  }

  lemma {:induction false} SearchFails(m: Matcher, text: string, pos: nat)
    requires forall j :: pos <= j <= |text| ==> m(text, j).None?
    ensures Search(m, text, pos) == None
    decreases |text| - pos
  {
    if pos <= |text| { SearchFails(m, text, pos + 1); }
  }

  /** The last of `re.finditer`'s matches: each search starts where the last match ended. */
  function LastMatch(m: Matcher, text: string, pos: nat): (r: Option<Match>)
    requires Proper(m)
    ensures r.Some? ==> pos <= r.value.start < r.value.end <= |text|
    decreases |text| - pos
  {
    SearchFinds(m, text, pos);
    match Search(m, text, pos)
    case None => None
    case Some(found) =>
      var later := LastMatch(m, text, found.end);
      if later.Some? then later else Some(found)
  }

  lemma ClosesAreProper()
    ensures Proper(OriginalCloseAt) && Proper(GeneratedCloseAt) && Proper(OriginalOpenAt) && Proper(GeneratedOpenAt)
  {
  }

  /** `str.strip` */
  function Strip(s: string): (r: string) {
    if s != "" && IsSpace(s[0]) then Strip(s[1..])
    else if s != "" && IsSpace(s[|s| - 1]) then Strip(s[..|s| - 1])
    else s
  }

  /** The characters that are not white space, in order. */
  function Squash(s: string): (r: string) {
    if s == "" then "" else (if IsSpace(s[0]) then "" else [s[0]]) + Squash(s[1..])
  }

  lemma {:induction false} SquashConcat(a: string, b: string)
    ensures Squash(a + b) == Squash(a) + Squash(b)
  {
    if a == "" {
      assert a + b == b;
    } else {
      assert (a + b)[1..] == a[1..] + b;
      SquashConcat(a[1..], b);
    }
  }

  lemma {:induction false} StripKeepsText(s: string)
    ensures Squash(Strip(s)) == Squash(s)
    ensures Strip(s) == "" <==> Squash(s) == ""
    ensures Strip(s) != "" ==> !IsSpace(Strip(s)[0]) && !IsSpace(Strip(s)[|Strip(s)| - 1])
    decreases |s|
  {
    if s != "" && IsSpace(s[0]) {
      StripKeepsText(s[1..]);
    } else if s != "" && IsSpace(s[|s| - 1]) {
      var k := |s| - 1;
      StripKeepsText(s[..k]);
      assert s == s[..k] + [s[k]];
      SquashConcat(s[..k], [s[k]]);
      assert [s[k]][1..] == "";
    }
  }
}
