/** Composing a body and taking it apart again: the pair is an exact round trip on the human
    original, up to the cases named here. */
module DescriptionRoundTrip {
  import opened Prelude
  import opened Markers
  import opened Description

  // ---------------------------------------------------------------------------------
  // Composing
  // ---------------------------------------------------------------------------------

  predicate IsWord(c: char) {
    'a' <= c <= 'z' || 'A' <= c <= 'Z' || '0' <= c <= '9' || c == '_'
  }

  /** The end of the first `lit` at or after `i`. */
  function FirstAfter(text: string, i: nat, lit: string): (r: Option<nat>)
    ensures r.Some? ==> i + |lit| <= r.value <= |text|
    decreases |text| - i
  {
    if i > |text| then None
    else if At(text, i, lit) then Some(i + |lit|)
    else FirstAfter(text, i + 1, lit)
  }

  /** `<!--\s*` */
  function CommentAt(text: string, i: nat): (r: Option<nat>)
    ensures r.Some? ==> i < r.value <= |text|
  {
    if At(text, i, "<!--") then Some(RunEnd(text, i + 4, IsSpace)) else None
  }

  /** `(?:/\s*)?` */
  function SlashAt(text: string, i: nat): (r: Option<nat>)
    ensures r.Some? ==> i <= r.value && (i <= |text| ==> r.value <= |text|)
  {
    if i < |text| && text[i] == '/' then Some(RunEnd(text, i + 1, IsSpace)) else Some(i)
  }

  /** `prxref:` */
  function KeyAt(text: string, i: nat): (r: Option<nat>)
    ensures r.Some? ==> i < r.value <= |text|
  {
    if At(text, i, "prxref:") then Some(i + 7) else None
  }

  /** `(?:generated|original)\b` */
  function NameAt(text: string, i: nat): (r: Option<nat>)
    ensures r.Some? ==> i < r.value <= |text|
  {
    var e := if At(text, i, "generated") then i + 9 else if At(text, i, "original") then i + 8 else i;
    if e == i || (e < |text| && IsWord(text[e])) then None else Some(e)
  }

  /** `.*?-->` */
  function CommentEnd(text: string, i: nat): (r: Option<nat>)
    ensures r.Some? ==> i < r.value <= |text|
  {
    FirstAfter(text, i, "-->")
  }

  /** The end of what five matchers match one behind the other. */
  function MatchedBy(m: EndMatcher, n: EndMatcher, o: EndMatcher, p: EndMatcher, q: EndMatcher, text: string, i: nat)
    : Option<nat>
  {
    match m(text, i)
    case None => None
    case Some(a) =>
      match n(text, a)
      case None => None
      case Some(b) =>
        match o(text, b)
        case None => None
        case Some(c) =>
          match p(text, c)
          case None => None
          case Some(d) => q(text, d)
  }

  /** Anything shaped like a marker, in either direction; the end of the match at `i`. */
  function AnyMarkerAt(text: string, i: nat): (r: Option<nat>)
    ensures r.Some? ==> i < r.value <= |text|
  {
    MatchedBy(CommentAt, SlashAt, KeyAt, NameAt, CommentEnd, text, i)
  }

  ghost predicate Advances(m: EndMatcher) {
    forall text: string, i: nat :: m(text, i).Some? ==> i < m(text, i).value <= |text|
  }

  lemma MarkersAdvance()
    ensures Advances(AnyMarkerAt)
  {
  }

  /** `re.sub("", text)`: one pass, left to right. */
  function Removed(m: EndMatcher, text: string, i: nat): string
    requires Advances(m)
    decreases |text| - i
  {
    if i >= |text| then ""
    else
      match m(text, i)
      case Some(e) => Removed(m, text, e)
      case None => [text[i]] + Removed(m, text, i + 1)
  }

  function Sanitize(text: string): string {
    MarkersAdvance();
    Strip(Removed(AnyMarkerAt, text, 0))
  }

  /** The opening comment line of `sha` and `at`, and what follows it. */
  function Opening(sha: string, at: string, rest: string): string {
    GENERATED_OPEN_PREFIX + ("v" + FieldsOf(sha, at, "\n" + rest))
  }

  function FieldsOf(sha: string, at: string, rest: string): string {
    "1" + (" head=" + (sha + (" at=" + (at + (" -->" + rest)))))
  }

  /** What follows the stored original, from its newline on. */
  function SectionTail(): string {
    "\n" + (ORIGINAL_CLOSE + ("\n\n" + (DETAILS_CLOSE + "\n")))
  }

  /** What follows the close of the generated block: the original, when there is one, in its section. */
  function Footer(original: string): string {
    if Strip(original) == "" then "\n"
    else "\n\n" + (DETAILS_OPEN + ("\n\n" + (ORIGINAL_OPEN + ("\n" + (original + SectionTail())))))
  }

  /** The body around an already sanitised text. */
  function Body(generated: string, original: string, sha: string, at: string): string {
    Opening(sha, at, generated + ("\n" + (GENERATED_CLOSE + Footer(original))))
  }

  predicate Token(s: string) {
    s != "" && forall k :: 0 <= k < |s| ==> !IsSpace(s[k])
  }

  datatype ComposeError = BadHeadSha

  /** `at` is the formatted time stamp. */
  function Compose(generated: string, original: string, sha: string, at: string): Result<string, ComposeError> {
    if !Token(sha) then Err(BadHeadSha) else Ok(Body(Sanitize(generated), original, sha, at))
  }

  // ---------------------------------------------------------------------------------
  // What a composed body looks like
  // ---------------------------------------------------------------------------------

  /** Lines of text, each with its newline. */
  ghost function LinesOf(lines: seq<string>): string {
    if lines == [] then "" else lines[0] + ("\n" + LinesOf(lines[1..]))
  }

  lemma LinesConcat(a: seq<string>, b: seq<string>)
    ensures LinesOf(a + b) == LinesOf(a) + LinesOf(b)
  {
    if a == [] {
      assert a + b == b;
    } else {
      LinesConcat(a[1..], b);
      assert (a + b)[1..] == a[1..] + b;
      ConcatAssociates("\n", LinesOf(a[1..]), LinesOf(b));
      ConcatAssociates(a[0], "\n" + LinesOf(a[1..]), LinesOf(b));
    }
  }

  ghost function HeaderLine(sha: string, at: string): string {
    "<!-- prxref:generated v1 head=" + (sha + (" at=" + (at + " -->")))
  }

  ghost function BlockLines(generated: string, sha: string, at: string): seq<string> {
    [HeaderLine(sha, at), generated, "<!-- /prxref:generated -->"]
  }

  ghost function OriginalLines(original: string): seq<string> {
    ["", "<details>" + "<summary>Original description</summary>", "", "<!-- prxref:original v1 -->", original,
     "<!-- /prxref:original -->", "", "</details>"]
  }

  lemma OpeningIs(sha: string, at: string, rest: string)
    ensures Opening(sha, at, rest) == HeaderLine(sha, at) + ("\n" + rest)
  {
    var line := "\n" + rest;
    var tail := " at=" + (at + " -->");
    ConcatAssociates(at, " -->", line);
    ConcatAssociates(" at=", at + " -->", line);
    ConcatAssociates(sha, tail, line);
    var fields := sha + tail;
    assert FieldsOf(sha, at, line) == "1" + (" head=" + (fields + line));
    ConcatAssociates("<!-- prxref:generated v1 head=", fields, line);
    PrefixIs(fields + line);
  }

  lemma PrefixIs(x: string)
    ensures GENERATED_OPEN_PREFIX + ("v" + ("1" + (" head=" + x))) == "<!-- prxref:generated v1 head=" + x
  {
    ConcatAssociates("1", " head=", x);
    ConcatAssociates("v", "1" + " head=", x);
    ConcatAssociates(GENERATED_OPEN_PREFIX, "v" + ("1" + " head="), x);
    assert GENERATED_OPEN_PREFIX + ("v" + ("1" + " head=")) == "<!-- prxref:generated v1 head=";
  }

  lemma LinesOfThree(a: string, b: string, c: string)
    ensures LinesOf([a, b, c]) == a + ("\n" + (b + ("\n" + (c + "\n"))))
  {
    assert [a, b, c][1..] == [b, c] && [b, c][1..] == [c] && [c][1..] == [];
    assert LinesOf([c]) == c + "\n" by { assert "\n" + LinesOf([]) == "\n"; }
    assert LinesOf([b, c]) == b + ("\n" + LinesOf([c]));
  }

  lemma LinesOfEight(a: string, b: string, c: string, d: string, e: string, f: string, g: string, h: string)
    ensures LinesOf([a, b, c, d, e, f, g, h])
         == a + ("\n" + (b + ("\n" + (c + ("\n" + (d + ("\n" + (e + ("\n" + LinesOf([f, g, h]))))))))))
  {
    var all := [a, b, c, d, e, f, g, h];
    assert all[1..] == [b, c, d, e, f, g, h] && all[1..][1..] == [c, d, e, f, g, h];
    assert [c, d, e, f, g, h][1..] == [d, e, f, g, h] && [d, e, f, g, h][1..] == [e, f, g, h];
    assert [e, f, g, h][1..] == [f, g, h];
    assert LinesOf([e, f, g, h]) == e + ("\n" + LinesOf([f, g, h]));
    assert LinesOf([d, e, f, g, h]) == d + ("\n" + LinesOf([e, f, g, h]));
    assert LinesOf([c, d, e, f, g, h]) == c + ("\n" + LinesOf([d, e, f, g, h]));
    assert LinesOf([b, c, d, e, f, g, h]) == b + ("\n" + LinesOf([c, d, e, f, g, h]));
  }

  lemma BlankLine(x: string)
    ensures "\n\n" + x == "\n" + ("\n" + x) && "" + ("\n" + x) == "\n" + x
  {
  }

  lemma SectionLines(d: string, o: string, original: string, c: string, e: string)
    ensures "\n" + LinesOf(["", d, "", o, original, c, "", e])
         == "\n\n" + (d + ("\n\n" + (o + ("\n" + (original + ("\n" + (c + ("\n\n" + (e + "\n")))))))))
  {
    LinesOfEight("", d, "", o, original, c, "", e);
    LinesOfThree(c, "", e);
    BlankLine(e + "\n");
    var inner := o + ("\n" + (original + ("\n" + LinesOf([c, "", e]))));
    BlankLine(inner);
    BlankLine(d + ("\n" + ("" + ("\n" + inner))));
  }

  lemma FooterIs(original: string)
    requires !AllSpace(original)
    ensures Footer(original) == "\n" + LinesOf(OriginalLines(original))
  {
    BlankIff(original);
    SectionLines(DETAILS_OPEN, ORIGINAL_OPEN, original, ORIGINAL_CLOSE, DETAILS_CLOSE);
  }

  /** A composed body, line by line: the open marker with the pinned head and time, the cleaned text, the close
      marker, and, for an original that is not blank, its section.  A head that is empty or holds white space
      is refused. */
  lemma ComposeIs(generated: string, original: string, sha: string, at: string)
    ensures Compose(generated, original, sha, at)
         == if sha == "" || exists k :: 0 <= k < |sha| && IsSpace(sha[k]) then Err(BadHeadSha)
            else Ok(LinesOf(BlockLines(Sanitize(generated), sha, at)
                            + if AllSpace(original) then [] else OriginalLines(original)))
  {
    var g := Sanitize(generated);
    var close := "<!-- /prxref:generated -->";
    BlankIff(original);
    OpeningIs(sha, at, g + ("\n" + (GENERATED_CLOSE + Footer(original))));
    LinesOfThree(HeaderLine(sha, at), g, close);
    if AllSpace(original) {
      assert BlockLines(g, sha, at) + [] == BlockLines(g, sha, at);
    } else {
      var lines := LinesOf(OriginalLines(original));
      FooterIs(original);
      LinesConcat(BlockLines(g, sha, at), OriginalLines(original));
      ConcatAssociates(close, "\n", lines);
      ConcatAssociates("\n", close + "\n", lines);
      ConcatAssociates(g, "\n" + (close + "\n"), lines);
      ConcatAssociates("\n", g + ("\n" + (close + "\n")), lines);
      ConcatAssociates(HeaderLine(sha, at), "\n" + (g + ("\n" + (close + "\n"))), lines);
    }
  }

  // ---------------------------------------------------------------------------------
  // Matching known text
  // ---------------------------------------------------------------------------------

  lemma AtConcat(a: string, lit: string, b: string)
    ensures At(a + (lit + b), |a|, lit)
  {
  }

  lemma {:induction false} RunEndIs(text: string, i: nat, p: char -> bool, e: nat)
    requires i <= e < |text| && (forall k :: i <= k < e ==> p(text[k])) && !p(text[e])
    ensures RunEnd(text, i, p) == e
    decreases e - i
  {
    if i < e { RunEndIs(text, i + 1, p, e); }
  }

  /** From `pos` on, `text` reads `rest`. */
  ghost predicate Reads(text: string, pos: nat, rest: string) {
    pos <= |text| && text[pos..] == rest
  }

  lemma ReadsChar(text: string, pos: nat, rest: string, k: nat)
    requires Reads(text, pos, rest) && k < |rest|
    ensures pos + k < |text| && text[pos + k] == rest[k]
  {
  }

  lemma ReadsOn(text: string, pos: nat, a: string, b: string)
    requires Reads(text, pos, a + b)
    ensures Reads(text, pos + |a|, b)
    ensures At(text, pos, a)
  {
    assert text[pos + |a|..] == text[pos..][|a|..];
    forall k | pos <= k < pos + |a| ensures text[k] == a[k - pos] {
      assert text[pos..][k - pos] == (a + b)[k - pos];
    }
  }

  lemma AtSlice(text: string, i: nat, lit: string)
    requires At(text, i, lit)
    ensures text[i..i + |lit|] == lit
  {
  }

  ghost predicate GroupOk(group: string, next: string, p: char -> bool) {
    group != "" && next != "" && (forall k :: 0 <= k < |group| ==> p(group[k])) && !p(next[0])
  }

  /** A group at `i` that ends at `e`, where `next` stands. */
  ghost predicate GroupAt(text: string, i: nat, group: string, next: string, p: char -> bool, e: nat) {
    && i <= e <= |text| && GroupThen(text, i, p, next) == Some(e) && text[i..e] == group
  }

  /** A known group between known texts. */
  lemma GroupReads(text: string, i: nat, group: string, next: string, rest: string, p: char -> bool, e: nat)
    requires GroupOk(group, next, p) && Reads(text, i, group + (next + rest)) && e == i + |group|
    ensures GroupAt(text, i, group, next, p, e) && Reads(text, e + |next|, rest)
  {
    ReadsOn(text, i, group, next + rest);
    ReadsOn(text, e, next, rest);
    AtSlice(text, i, group);
    RunEndIs(text, i, p, e);
  }

  ghost function HeaderLength(sha: string, at: string): nat {
    |GENERATED_OPEN_PREFIX| + 17 + |sha| + |at|
  }

  lemma TwoGroups(text: string, i: nat, g1: string, n1: string, g2: string, n2: string, rest: string,
                  p1: char -> bool, p2: char -> bool, d: nat, h: nat)
    requires GroupOk(g1, n1, p1) && GroupOk(g2, n2, p2) && Reads(text, i, g1 + (n1 + (g2 + (n2 + rest))))
    requires d == i + |g1| && h == d + |n1| + |g2|
    ensures GroupAt(text, i, g1, n1, p1, d) && GroupAt(text, d + |n1|, g2, n2, p2, h) && Reads(text, h + |n2|, rest)
  {
    GroupReads(text, i, g1, n1, g2 + (n2 + rest), p1, d);
    GroupReads(text, d + |n1|, g2, n2, rest, p2, h);
  }

  lemma ThreeGroups(text: string, i: nat, g1: string, n1: string, g2: string, n2: string, g3: string, n3: string,
                    rest: string, p1: char -> bool, p2: char -> bool, d: nat, h: nat, a: nat)
    requires GroupOk(g1, n1, p1) && GroupOk(g2, n2, p2) && GroupOk(g3, n3, p2)
    requires Reads(text, i, g1 + (n1 + (g2 + (n2 + (g3 + (n3 + rest))))))
    requires d == i + |g1| && h == d + |n1| + |g2| && a == h + |n2| + |g3|
    ensures GroupAt(text, i, g1, n1, p1, d) && GroupAt(text, d + |n1|, g2, n2, p2, h)
            && GroupAt(text, h + |n2|, g3, n3, p2, a)
    ensures Reads(text, a + |n3|, rest)
  {
    TwoGroups(text, i, g1, n1, g2, n2, g3 + (n3 + rest), p1, p2, d, h);
    GroupReads(text, h + |n2|, g3, n3, rest, p2, a);
  }

  lemma FieldsFrom(version: EndMatcher, head: EndMatcher, at: EndMatcher, text: string, i: nat, f: Fields)
    requires version(text, i) == Some(f.version) && head(text, f.version + 6) == Some(f.head)
    requires at(text, f.head + 4) == Some(f.at)
    ensures FieldsBy(version, head, at, text, i) == Some(f)
  {
  }

  /** The texts of the fields of an opening comment at `i`: version, `sha` and `at`. */
  ghost predicate FieldTexts(text: string, i: nat, sha: string, at: string, h: nat, a: nat) {
    && i < |text| && text[i] == '1' && i + 7 <= h && h + 4 <= a <= |text|
    && text[i + 7..h] == sha && text[h + 4..a] == at
  }

  lemma FieldsRead(text: string, i: nat, sha: string, at: string, rest: string, h: nat, a: nat)
    requires Token(sha) && Token(at) && h == i + 7 + |sha| && a == h + 4 + |at|
    requires Reads(text, i, FieldsOf(sha, at, rest))
    ensures OpenFields(text, i) == Some(Fields(i + 1, h, a)) && FieldTexts(text, i, sha, at, h, a)
    ensures Reads(text, a + 4, rest)
  {
    ThreeGroups(text, i, "1", " head=", sha, " at=", at, " -->", rest, IsDigit, NotSpace, i + 1, h, a);
    FieldsFound(text, i, sha, at, h, a);
  }

  lemma FieldsFound(text: string, i: nat, sha: string, at: string, h: nat, a: nat)
    requires GroupAt(text, i, "1", " head=", IsDigit, i + 1)
    requires GroupAt(text, i + 7, sha, " at=", NotSpace, h) && GroupAt(text, h + 4, at, " -->", NotSpace, a)
    ensures OpenFields(text, i) == Some(Fields(i + 1, h, a)) && FieldTexts(text, i, sha, at, h, a)
  {
    FieldsAt(text, i, i + 1, h, a);
    assert text[i] == text[i..i + 1][0];
  }

  lemma FieldsAt(text: string, i: nat, d: nat, h: nat, a: nat)
    requires VersionAt(text, i) == Some(d) && HeadAt(text, d + 6) == Some(h) && TimeAt(text, h + 4) == Some(a)
    ensures OpenFields(text, i) == Some(Fields(d, h, a))
  {
    FieldsFrom(VersionAt, HeadAt, TimeAt, text, i, Fields(d, h, a));
  }

  lemma PrefixRead(text: string, rest: string)
    requires Reads(text, 0, GENERATED_OPEN_PREFIX + ("v" + rest))
    ensures var v := |GENERATED_OPEN_PREFIX|;
            && At(text, 0, GENERATED_OPEN_PREFIX) && v < |text| && text[v] == 'v' && Reads(text, v + 1, rest)
  {
    ReadsOn(text, 0, GENERATED_OPEN_PREFIX, "v" + rest);
    ReadsChar(text, |GENERATED_OPEN_PREFIX|, "v" + rest, 0);
    ReadsOn(text, |GENERATED_OPEN_PREFIX|, "v", rest);
  }

  lemma OpenFrom(text: string, v: nat, f: Fields, n: nat)
    requires 0 < v && OpenFields(text, v + 1) == Some(f) && NewlineEnd(text, f.at + 4) == Some(n)
    ensures OpenBehind(text, 0, v) == Some(Match(0, n, Some(FieldGroups(text, v, f))))
  {
  }

  lemma VersionText(text: string, v: nat)
    requires v + 1 < |text| && text[v] == 'v' && text[v + 1] == '1'
    ensures text[v..v + 2] == "v1"
  {
  }

  lemma NewlineRead(text: string, pos: nat, rest: string, next: nat)
    requires Reads(text, pos, "\n" + rest) && next == pos + 1
    ensures NewlineEnd(text, pos) == Some(next) && Reads(text, next, rest)
  {
    ReadsChar(text, pos, "\n" + rest, 0);
    ReadsOn(text, pos, "\n", rest);
  }

  lemma FieldsOpen(text: string, v: nat, sha: string, at: string, h: nat, a: nat, n: nat)
    requires 0 < v < |text| && text[v] == 'v' && FieldTexts(text, v + 1, sha, at, h, a)
    requires OpenFields(text, v + 1) == Some(Fields(v + 2, h, a)) && NewlineEnd(text, a + 4) == Some(n)
    ensures OpenBehind(text, 0, v) == Some(Match(0, n, Some(Header("v1", sha, at))))
  {
    VersionText(text, v);
    OpenFrom(text, v, Fields(v + 2, h, a), n);
  }

  /** A match of the opening comment at the start of `text`, up to `n`. */
  ghost predicate OpensTo(text: string, sha: string, at: string, n: nat) {
    GeneratedOpenAt(text, 0) == Some(Match(0, n, Some(Header("v1", sha, at))))
  }

  lemma OpensAt(text: string, v: nat, sha: string, at: string, n: nat)
    requires v == |GENERATED_OPEN_PREFIX| && At(text, 0, GENERATED_OPEN_PREFIX) && v < |text| && text[v] == 'v'
    requires OpenBehind(text, 0, v) == Some(Match(0, n, Some(Header("v1", sha, at))))
    ensures OpensTo(text, sha, at, n)
  {
  }

  lemma FieldsBehind(text: string, v: nat, sha: string, at: string, rest: string, h: nat, a: nat, n: nat)
    requires v == |GENERATED_OPEN_PREFIX| && At(text, 0, GENERATED_OPEN_PREFIX)
    requires v < |text| && text[v] == 'v' && FieldTexts(text, v + 1, sha, at, h, a)
    requires OpenFields(text, v + 1) == Some(Fields(v + 2, h, a)) && Reads(text, a + 4, "\n" + rest) && n == a + 5
    ensures OpensTo(text, sha, at, n) && Reads(text, n, rest)
  {
    NewlineRead(text, a + 4, rest, n);
    FieldsOpen(text, v, sha, at, h, a, n);
    OpensAt(text, v, sha, at, n);
  }

  lemma OpeningMatches(text: string, sha: string, at: string, rest: string, n: nat)
    requires Token(sha) && Token(at) && Reads(text, 0, Opening(sha, at, rest)) && n == HeaderLength(sha, at)
    ensures OpensTo(text, sha, at, n) && Reads(text, n, rest)
  {
    var v := |GENERATED_OPEN_PREFIX|;
    var h, a := v + 8 + |sha|, v + 12 + |sha| + |at|;
    PrefixRead(text, FieldsOf(sha, at, "\n" + rest));
    FieldsRead(text, v + 1, sha, at, "\n" + rest, h, a);
    FieldsBehind(text, v, sha, at, rest, h, a, n);
  }

  // ---------------------------------------------------------------------------------
  // Finding the end of the generated block
  // ---------------------------------------------------------------------------------

  ghost predicate Holds(text: string, lit: string) {
    exists i: nat :: At(text, i, lit)
  }

  lemma CloseHasNoNewline()
    ensures forall k :: 0 <= k < |GENERATED_CLOSE| ==> GENERATED_CLOSE[k] != '\n' && GENERATED_CLOSE[k] != '\r'
    ensures forall k :: 0 <= k < |ORIGINAL_CLOSE| ==> ORIGINAL_CLOSE[k] != '\n' && ORIGINAL_CLOSE[k] != '\r'
    ensures forall k :: 0 <= k < |DETAILS_CLOSE| ==> !IsSpace(DETAILS_CLOSE[k])
  {
    assert '\n' !in GENERATED_CLOSE && '\r' !in GENERATED_CLOSE;
    assert '\n' !in ORIGINAL_CLOSE && '\r' !in ORIGINAL_CLOSE;
  }

  /** A close of the block inside or across `g` would need the close marker inside `g`. */
  lemma NoEarlyGeneratedClose(text: string, n: nat, g: string, j: nat)
    requires n + |g| < |text| && At(text, n, g) && text[n + |g|] == '\n'
    requires n <= j < n + |g| && GeneratedCloseAt(text, j).Some?
    requires g[|g| - 1] != '\r'
    ensures Holds(g, "\n" + GENERATED_CLOSE)
  {
    CloseHasNoNewline();
    var e := NewlineEnd(text, j).value;
    assert text[j] == g[j - n];
    assert e - 1 < n + |g|;
    assert e + |GENERATED_CLOSE| <= n + |g|;
    var i := e - 1 - n;
    var lit := "\n" + GENERATED_CLOSE;
    forall k | i <= k < i + |lit| ensures g[k] == lit[k - i] {
      assert text[n + k] == g[k];
    }
    assert At(g, i, "\n" + GENERATED_CLOSE);
  }

  /** `g` stands at `n`, and its close from `p` to `q`, with `tail` behind it. */
  ghost predicate Closes(text: string, n: nat, g: string, tail: string, p: nat, q: nat) {
    && p == n + |g| && q == p + 1 + |GENERATED_CLOSE|
    && At(text, n, g)
    && GeneratedCloseAt(text, p) == Some(Match(p, q, None))
    && p < |text| && text[p] == '\n'
    && Reads(text, q, tail)
  }

  /** A line `close` behind `g`. */
  lemma LineReads(text: string, n: nat, g: string, close: string, tail: string)
    requires Reads(text, n, g + ("\n" + (close + tail)))
    ensures At(text, n, g) && n + |g| < |text| && text[n + |g|] == '\n'
    ensures At(text, n + |g| + 1, close) && Reads(text, n + |g| + 1 + |close|, tail)
  {
    ReadsOn(text, n, g, "\n" + (close + tail));
    ReadsChar(text, n + |g|, "\n" + (close + tail), 0);
    ReadsOn(text, n + |g|, "\n", close + tail);
    ReadsOn(text, n + |g| + 1, close, tail);
  }

  lemma WrittenClose(text: string, n: nat, g: string, tail: string, p: nat, q: nat)
    requires Reads(text, n, g + ("\n" + (GENERATED_CLOSE + tail))) && p == n + |g| && q == p + 1 + |GENERATED_CLOSE|
    ensures Closes(text, n, g, tail, p, q)
  {
    LineReads(text, n, g, GENERATED_CLOSE, tail);
  }

  /** The block ends where it was written when the generated text holds no close marker at the start
      of a line. */
  lemma GeneratedCloseFound(text: string, n: nat, g: string, tail: string, p: nat, q: nat)
    requires Closes(text, n, g, tail, p, q) && !Holds(g, "\n" + GENERATED_CLOSE)
    requires g != "" ==> g[|g| - 1] != '\r'
    ensures Search(GeneratedCloseAt, text, n) == Some(Match(p, q, None))
  {
    forall j | n <= j < p ensures GeneratedCloseAt(text, j).None? {
      if GeneratedCloseAt(text, j).Some? { NoEarlyGeneratedClose(text, n, g, j); }
    }
    SearchIs(GeneratedCloseAt, text, n, p);
  }

  lemma GeneratedCloseIsProper()
    ensures Proper(GeneratedCloseAt)
  {
  }

  lemma EarlyClose(text: string, n: nat, g: string, i: nat)
    requires At(text, n, g) && At(g, i, "\n" + GENERATED_CLOSE)
    ensures GeneratedCloseAt(text, n + i).Some? && n + i < n + |g|
  {
    var lit := "\n" + GENERATED_CLOSE;
    forall k | n + i <= k < n + i + |lit| ensures text[k] == lit[k - n - i] {
      assert text[k] == g[k - n];
    }
    assert text[n + i] == lit[0];
    forall k | n + i + 1 <= k < n + i + 1 + |GENERATED_CLOSE| ensures text[k] == GENERATED_CLOSE[k - n - i - 1] {
      assert text[k] == lit[k - n - i];
    }
  }

  // ---------------------------------------------------------------------------------
  // Finding the stored original
  // ---------------------------------------------------------------------------------

  lemma NoOpenAtNewline(text: string, i: nat)
    requires i < |text| && text[i] == '\n'
    ensures OriginalOpenAt(text, i).None?
  {
    assert DETAILS_OPEN[0] == '<' && ORIGINAL_OPEN[0] == '<';
  }

  lemma SectionOpens(text: string, pos: nat, rest: string)
    requires Reads(text, pos, DETAILS_OPEN + ("\n\n" + (ORIGINAL_OPEN + ("\n" + rest))))
    ensures OriginalOpenAt(text, pos) == Some(Match(pos, pos + |DETAILS_OPEN| + 2 + |ORIGINAL_OPEN| + 1, None))
    ensures Reads(text, pos + |DETAILS_OPEN| + 2 + |ORIGINAL_OPEN| + 1, rest)
  {
    var a := pos + |DETAILS_OPEN|;
    var c := a + 2 + |ORIGINAL_OPEN|;
    ReadsOn(text, pos, DETAILS_OPEN, "\n\n" + (ORIGINAL_OPEN + ("\n" + rest)));
    ReadsOn(text, a, "\n\n", ORIGINAL_OPEN + ("\n" + rest));
    ReadsOn(text, a + 2, ORIGINAL_OPEN, "\n" + rest);
    ReadsOn(text, c, "\n", rest);
    assert text[a] == '\n' && text[a + 1] == '\n';
    assert text[a + 2] == ORIGINAL_OPEN[0] == '<';
    assert text[c] == '\n';
    RunEndIs(text, a, Blank, a);
    assert NewlinesEnd(text, a) == NewlinesEnd(text, a + 1) == NewlinesEnd(text, a + 2) == a + 2;
  }

  /** Where the close of the stored original starts: at the carriage return the original ends in, if
      it does, else at the newline behind it. */
  function CloseStart(oe: nat, original: string): nat
    requires original != ""
  {
    if original[|original| - 1] == '\r' then oe + |original| - 1 else oe + |original|
  }

  /** The stored original and its close, as they stand in a composed body. */
  ghost predicate Stored(text: string, oe: nat, original: string) {
    && original != "" && At(text, oe, original)
    && var q := oe + |original|;
       var e := q + 1 + |ORIGINAL_CLOSE|;
       && At(text, q, "\n") && At(text, q + 1, ORIGINAL_CLOSE) && At(text, e, "\n\n")
       && At(text, e + 2, DETAILS_CLOSE) && At(text, e + 2 + |DETAILS_CLOSE|, "\n")
       && |text| == e + 3 + |DETAILS_CLOSE|
  }

  /** Five texts, one behind the other, up to the end. */
  lemma FiveStand(text: string, p: nat, a: string, b: string, c: string, d: string, e: string,
                  p2: nat, p3: nat, p4: nat, p5: nat)
    requires Reads(text, p, a + (b + (c + (d + e))))
    requires p2 == p + |a| && p3 == p2 + |b| && p4 == p3 + |c| && p5 == p4 + |d|
    ensures At(text, p, a) && At(text, p2, b) && At(text, p3, c) && At(text, p4, d) && At(text, p5, e)
    ensures |text| == p5 + |e|
  {
    ReadsOn(text, p, a, b + (c + (d + e)));
    ReadsOn(text, p2, b, c + (d + e));
    ReadsOn(text, p3, c, d + e);
    ReadsOn(text, p4, d, e);
    AllOfIt(text, p5, e);
  }

  lemma AllOfIt(text: string, p: nat, e: string)
    requires Reads(text, p, e)
    ensures At(text, p, e) && |text| == p + |e|
  {
    assert e == e + "";
    ReadsOn(text, p, e, "");
  }

  lemma SectionIsStored(text: string, oe: nat, original: string)
    requires original != "" && Reads(text, oe, original + SectionTail())
    ensures Stored(text, oe, original)
  {
    var q := oe + |original|;
    var e := q + 1 + |ORIGINAL_CLOSE|;
    ReadsOn(text, oe, original, SectionTail());
    FiveStand(text, q, "\n", ORIGINAL_CLOSE, "\n\n", DETAILS_CLOSE, "\n", q + 1, e, e + 2, e + 2 + |DETAILS_CLOSE|);
  }

  lemma FinalSection(text: string, oe: nat, original: string)
    requires Stored(text, oe, original)
    ensures SectionEnd(text, oe + |original| + 1 + |ORIGINAL_CLOSE|) == |text| - 1
  {
    CloseHasNoNewline();
    var e := oe + |original| + 1 + |ORIGINAL_CLOSE|;
    assert text[e] == '\n' && text[e + 1] == '\n';
    assert text[e + 2] == DETAILS_CLOSE[0];
    RunEndIs(text, e, IsSpace, e + 2);
  }

  lemma FinalNewline(text: string, oe: nat, original: string)
    requires Stored(text, oe, original)
    ensures NewlineEnd(text, CloseStart(oe, original)) == Some(oe + |original| + 1)
  {
    var q := oe + |original|;
    assert text[q] == '\n';
    assert text[q - 1] == original[|original| - 1];
  }

  lemma FinalClose(text: string, oe: nat, original: string)
    requires Stored(text, oe, original)
    ensures OriginalCloseAt(text, CloseStart(oe, original)) == Some(Match(CloseStart(oe, original), |text| - 1, None))
  {
    FinalSection(text, oe, original);
    FinalNewline(text, oe, original);
    CloseFrom(text, CloseStart(oe, original), oe + |original| + 1, |text| - 1);
  }

  lemma CloseFrom(text: string, i: nat, e: nat, end: nat)
    requires NewlineEnd(text, i) == Some(e) && At(text, e, ORIGINAL_CLOSE)
    requires SectionEnd(text, e + |ORIGINAL_CLOSE|) == end
    ensures OriginalCloseAt(text, i) == Some(Match(i, end, None))
  {
  }

  lemma EarlierCloseMarker(text: string, oe: nat, original: string, j: nat)
    requires Stored(text, oe, original) && oe <= j < CloseStart(oe, original)
    requires OriginalCloseAt(text, j).Some?
    ensures NewlineEnd(text, j).Some?
    ensures NewlineEnd(text, j).value + |ORIGINAL_CLOSE| <= CloseStart(oe, original)
  {
    CloseHasNoNewline();
    var f, q := CloseStart(oe, original), oe + |original|;
    assert text[q] == '\n' && text[q - 1] == original[|original| - 1];
    assert text[j] == original[j - oe];
    assert text[f] == '\n' || text[f] == '\r';
  }

  /** The optional `</details>` behind an earlier close does not reach over the final one. */
  lemma EarlierSectionEnds(text: string, oe: nat, original: string, e: nat)
    requires Stored(text, oe, original) && e <= CloseStart(oe, original)
    ensures SectionEnd(text, e) <= CloseStart(oe, original)
  {
    CloseHasNoNewline();
    var f, q := CloseStart(oe, original), oe + |original|;
    assert text[q] == '\n' && text[q - 1] == original[|original| - 1];
    assert text[q + 1] == ORIGINAL_CLOSE[0] == '<' && text[q + 2] == ORIGINAL_CLOSE[1] == '!';
    assert DETAILS_CLOSE[0] == '<' && DETAILS_CLOSE[1] == '/';
    var k := RunEnd(text, e, IsSpace);
    RunStops(text, e, q + 1, k);
    assert IsSpace(text[f]) && IsSpace(text[q]);
    if At(text, k, DETAILS_CLOSE) {
      // the white space does not stop at the comment, so it stops before the final close
      assert text[k + 1] == '/' && text[k] == '<';
      assert k < f;
      assert k + |DETAILS_CLOSE| <= f;
    }
  }

  lemma CloseUnfolds(text: string, i: nat)
    requires OriginalCloseAt(text, i).Some?
    ensures NewlineEnd(text, i).Some? && NewlineEnd(text, i).value + |ORIGINAL_CLOSE| <= |text|
    ensures OriginalCloseAt(text, i).value.end == SectionEnd(text, NewlineEnd(text, i).value + |ORIGINAL_CLOSE|)
  {
  }

  /** A close found before the final one ends before it starts. */
  lemma EarlierCloseEnds(text: string, oe: nat, original: string, j: nat)
    requires Stored(text, oe, original) && oe <= j < CloseStart(oe, original)
    requires OriginalCloseAt(text, j).Some?
    ensures OriginalCloseAt(text, j).value.end <= CloseStart(oe, original)
  {
    EarlierCloseMarker(text, oe, original, j);
    CloseUnfolds(text, j);
    EarlierSectionEnds(text, oe, original, NewlineEnd(text, j).value + |ORIGINAL_CLOSE|);
  }

  lemma RunStops(text: string, e: nat, stop: nat, k: nat)
    requires e <= stop < |text| && !IsSpace(text[stop]) && k == RunEnd(text, e, IsSpace)
    ensures k <= stop
  {
  }

  lemma NoCloseAtEnd(text: string, i: nat)
    requires |text| < i + 1 + |ORIGINAL_CLOSE|
    ensures OriginalCloseAt(text, i).None?
  {
  }

  /** The last close is the final one, whatever the original holds. */
  lemma {:induction false} LastCloseIsFinal(text: string, oe: nat, original: string, pos: nat)
    requires Stored(text, oe, original) && oe <= pos <= CloseStart(oe, original)
    requires Proper(OriginalCloseAt)
    ensures LastMatch(OriginalCloseAt, text, pos) == Some(Match(CloseStart(oe, original), |text| - 1, None))
    decreases |text| - pos
  {
    var f := CloseStart(oe, original);
    FinalClose(text, oe, original);
    SearchIsFirst(OriginalCloseAt, text, pos, f);
    SearchFinds(OriginalCloseAt, text, pos);
    var found := Search(OriginalCloseAt, text, pos).value;
    if found.start == f {
      forall j | found.end <= j <= |text| ensures OriginalCloseAt(text, j).None? { NoCloseAtEnd(text, j); }
      SearchFails(OriginalCloseAt, text, found.end);
    } else {
      EarlierCloseEnds(text, oe, original, found.start);
      LastCloseIsFinal(text, oe, original, found.end);
    }
  }

  // ---------------------------------------------------------------------------------
  // The round trip
  // ---------------------------------------------------------------------------------

  /** What is left of an original that ends in a carriage return: the close pattern takes it. */
  function DropReturn(s: string): string {
    if s != "" && s[|s| - 1] == '\r' then s[..|s| - 1] else s
  }

  /** What comes back of an original: nothing of a blank one. */
  function Kept(original: string): string {
    if Strip(original) == "" then "" else DropReturn(original)
  }

  lemma DropReturnKeepsText(s: string)
    ensures Squash(DropReturn(s)) == Squash(s)
  {
    if DropReturn(s) != s {
      var k := |s| - 1;
      assert s == s[..k] + [s[k]];
      SquashConcat(s[..k], [s[k]]);
      assert [s[k]][1..] == "";
    }
  }

  /** A text whose block of `sha`, `at` and `g` closes where it was written, at `q`, with `tail` behind it. */
  ghost predicate Written(text: string, g: string, tail: string, sha: string, at: string, n: nat, q: nat) {
    && Search(GeneratedOpenAt, text, 0) == Some(Match(0, n, Some(Header("v1", sha, at))))
    && At(text, n, g)
    && Search(GeneratedCloseAt, text, n) == Some(Match(n + |g|, q, None))
    && Reads(text, q, tail)
  }

  lemma BodyOpens(text: string, sha: string, at: string, rest: string, n: nat)
    requires Token(sha) && Token(at) && text == Opening(sha, at, rest) && n == HeaderLength(sha, at)
    ensures Search(GeneratedOpenAt, text, 0) == Some(Match(0, n, Some(Header("v1", sha, at))))
    ensures Reads(text, n, rest)
  {
    assert text[0..] == text;
    OpeningMatches(text, sha, at, rest, n);
    OpensFirst(text, sha, at, n);
  }

  lemma OpensFirst(text: string, sha: string, at: string, n: nat)
    requires OpensTo(text, sha, at, n)
    ensures Search(GeneratedOpenAt, text, 0) == Some(Match(0, n, Some(Header("v1", sha, at))))
  {
    FirstIsFound(GeneratedOpenAt, text);
  }

  lemma FirstIsFound(m: Matcher, text: string)
    requires m(text, 0).Some?
    ensures Search(m, text, 0) == m(text, 0)
  {
  }

  lemma WrittenBlock(text: string, g: string, tail: string, sha: string, at: string, n: nat, q: nat)
    requires Written(text, g, tail, sha, at, n, q)
    ensures CutBlock(text) == Front("", Some(Block("v1", sha, at, g)), q)
  {
    assert text[n..n + |g|] == g;
    assert text[..0] == "";
  }

  lemma CutWithoutOriginal(text: string, pos: nat)
    requires Reads(text, pos, "\n")
    ensures CutOriginal(text, pos) == Back("", false, "", "\n")
  {
    assert text[pos] == '\n';
    forall i | pos <= i <= |text| ensures OriginalOpenAt(text, i).None? {
      if i < |text| { NoOpenAtNewline(text, i); }
    }
    SearchFails(OriginalOpenAt, text, pos);
  }

  ghost function Section(original: string): string {
    DETAILS_OPEN + ("\n\n" + (ORIGINAL_OPEN + ("\n" + (original + SectionTail()))))
  }

  lemma CutWithOriginal(text: string, pos: nat, original: string)
    requires Reads(text, pos, "\n\n" + Section(original)) && original != ""
    ensures CutOriginal(text, pos) == Back("\n\n", true, DropReturn(original), "\n")
  {
    OriginFound(text, pos, original);
    var oe := pos + 2 + SectionOpenLength();
    SectionIsStored(text, oe, original);
    ClosesAreProper();
    LastCloseIsFinal(text, oe, original, oe);
    StoredSlices(text, oe, original);
    assert text[pos..pos + 2] == "\n\n";
  }

  ghost function SectionOpenLength(): nat {
    |DETAILS_OPEN| + 2 + |ORIGINAL_OPEN| + 1
  }

  lemma SectionReads(text: string, pos: nat, original: string)
    requires Reads(text, pos, "\n\n" + Section(original))
    ensures Reads(text, pos + 2, Section(original))
    ensures pos + 2 <= |text| && text[pos] == '\n' && text[pos + 1] == '\n'
  {
    ReadsOn(text, pos, "\n\n", Section(original));
    ReadsChar(text, pos, "\n\n" + Section(original), 0);
    ReadsChar(text, pos, "\n\n" + Section(original), 1);
  }

  lemma OriginFound(text: string, pos: nat, original: string)
    requires Reads(text, pos, "\n\n" + Section(original))
    ensures Search(OriginalOpenAt, text, pos) == Some(Match(pos + 2, pos + 2 + SectionOpenLength(), None))
    ensures Reads(text, pos + 2 + SectionOpenLength(), original + SectionTail())
    ensures pos + 2 <= |text| && text[pos] == '\n' && text[pos + 1] == '\n'
  {
    SectionReads(text, pos, original);
    SectionOpens(text, pos + 2, original + SectionTail());
    NoOpenAtNewline(text, pos);
    NoOpenAtNewline(text, pos + 1);
    ThirdIsFound(OriginalOpenAt, text, pos);
  }

  lemma ThirdIsFound(m: Matcher, text: string, pos: nat)
    requires pos + 2 <= |text| && m(text, pos).None? && m(text, pos + 1).None? && m(text, pos + 2).Some?
    ensures Search(m, text, pos) == m(text, pos + 2)
  {
    SearchIs(m, text, pos, pos + 2);
  }

  lemma StoredSlices(text: string, oe: nat, original: string)
    requires Stored(text, oe, original)
    ensures text[oe..CloseStart(oe, original)] == DropReturn(original)
    ensures text[|text| - 1..] == "\n"
  {
    assert text[oe..oe + |original|] == original;
  }

  lemma BlankPieces()
    ensures Strip("") == "" && Strip("\n") == "" && Strip("\n\n") == ""
  {
    assert "\n"[1..] == "" && "\n\n"[1..] == "\n";
  }

  /** The block closes behind `g` when it reads so and `g` holds no close of its own. */
  lemma BlockCloses(text: string, g: string, rest: string, tail: string, n: nat, q: nat)
    requires Reads(text, n, rest) && rest == g + ("\n" + (GENERATED_CLOSE + tail))
    requires !Holds(g, "\n" + GENERATED_CLOSE) && (g != "" ==> !IsSpace(g[|g| - 1]))
    requires q == n + |g| + 1 + |GENERATED_CLOSE|
    ensures At(text, n, g) && Search(GeneratedCloseAt, text, n) == Some(Match(n + |g|, q, None)) && Reads(text, q, tail)
  {
    WrittenClose(text, n, g, tail, n + |g|, q);
    GeneratedCloseFound(text, n, g, tail, n + |g|, q);
  }

  lemma BodyWritten(text: string, g: string, rest: string, tail: string, sha: string, at: string, n: nat, q: nat)
    requires text == Opening(sha, at, rest) && rest == g + ("\n" + (GENERATED_CLOSE + tail))
    requires Token(sha) && Token(at)
    requires !Holds(g, "\n" + GENERATED_CLOSE) && (g != "" ==> !IsSpace(g[|g| - 1]))
    requires n == HeaderLength(sha, at) && q == n + |g| + 1 + |GENERATED_CLOSE|
    ensures Written(text, g, tail, sha, at, n, q)
  {
    BodyOpens(text, sha, at, rest, n);
    BlockCloses(text, g, rest, tail, n, q);
  }

  lemma SplitParts(text: string, b: Block, gap: string, hasSection: bool, stored: string)
    requires Cut(text) == Layout("", Some(b), gap, hasSection, stored, "\n")
    requires gap == "" || gap == "\n\n"
    ensures Split(text)
         == Parts(if Strip(stored) == "" then "" else stored, Some(b.body), Some(b.head), Some(b.at), Some(b.version),
            false)
  {
    BlankPieces();
  }

  lemma KeptBlank(original: string)
    ensures Strip(Kept(original)) == "" <==> Strip(original) == ""
  {
    BlankPieces();
    DropReturnKeepsText(original);
    StripKeepsText(original);
    StripKeepsText(DropReturn(original));
  }

  lemma SplitWritten(text: string, g: string, original: string, sha: string, at: string, n: nat, q: nat)
    requires Written(text, g, Footer(original), sha, at, n, q)
    ensures Split(text)
         == Parts(Kept(original), Some(g), Some(sha), Some(at), Some("v1"), false)
  {
    var b := Block("v1", sha, at, g);
    WrittenBlock(text, g, Footer(original), sha, at, n, q);
    KeptBlank(original);
    BlankPieces();
    if Strip(original) == "" {
      CutWithoutOriginal(text, q);
      SplitParts(text, b, "", false, "");
    } else {
      CutWithOriginal(text, q, original);
      SplitParts(text, b, "\n\n", true, DropReturn(original));
    }
  }

  /** Taking a composed body apart gives back the generated text, the pinned head and time, and the
      original: verbatim, save that a blank one is dropped and one final carriage return is lost.
      Markers or `</details>` inside the original change nothing. */
  lemma SplitUndoesBody(g: string, original: string, sha: string, at: string)
    requires Token(sha) && Token(at) && !Holds(g, "\n" + GENERATED_CLOSE)
    requires g != "" ==> !IsSpace(g[|g| - 1])
    ensures Split(Body(g, original, sha, at))
         == Parts(Kept(original), Some(g), Some(sha), Some(at), Some("v1"), false)
  {
    var n := HeaderLength(sha, at);
    var q := n + |g| + 1 + |GENERATED_CLOSE|;
    var rest := g + ("\n" + (GENERATED_CLOSE + Footer(original)));
    BodyWritten(Body(g, original, sha, at), g, rest, Footer(original), sha, at, n, q);
    SplitWritten(Body(g, original, sha, at), g, original, sha, at, n, q);
  }

  lemma SanitizedEnd(generated: string)
    ensures var g := Sanitize(generated); g != "" ==> !IsSpace(g[|g| - 1])
  {
    MarkersAdvance();
    StripKeepsText(Removed(AnyMarkerAt, generated, 0));
  }

  /** The composed body gives back the generated text exactly when the sanitised text holds no close
      marker at the start of a line. */
  lemma GeneratedSurvivesIff(generated: string, original: string, sha: string, at: string)
    requires Token(sha) && Token(at)
    ensures Compose(generated, original, sha, at).Ok?
    ensures Split(Compose(generated, original, sha, at).value).generated == Some(Sanitize(generated))
       <==> !Holds(Sanitize(generated), "\n" + GENERATED_CLOSE)
  {
    var g := Sanitize(generated);
    SanitizedEnd(generated);
    if Holds(g, "\n" + GENERATED_CLOSE) {
      TooEarlyShortens(Body(g, original, sha, at), g, original, sha, at);
    } else {
      SplitUndoesBody(g, original, sha, at);
    }
  }

  lemma TooEarlyShortens(text: string, g: string, original: string, sha: string, at: string)
    requires text == Body(g, original, sha, at) && Token(sha) && Token(at) && Holds(g, "\n" + GENERATED_CLOSE)
    ensures Split(text).generated.Some? && |Split(text).generated.value| < |g|
  {
    var n := HeaderLength(sha, at);
    var rest := "\n" + (GENERATED_CLOSE + Footer(original));
    BodyOpens(text, sha, at, g + rest, n);
    ReadsOn(text, n, g, rest);
    var i: nat :| At(g, i, "\n" + GENERATED_CLOSE);
    EarlyEnd(text, n, g, i);
    ShortBlock(text, n, |g|, sha, at);
  }

  lemma ShortBlock(text: string, n: nat, size: nat, sha: string, at: string)
    requires Search(GeneratedOpenAt, text, 0) == Some(Match(0, n, Some(Header("v1", sha, at))))
    requires Search(GeneratedCloseAt, text, n).Some? && Search(GeneratedCloseAt, text, n).value.end <= n + size
    ensures Split(text).generated.Some? && |Split(text).generated.value| < size
  {
    ClosesAreProper();
    SearchFinds(GeneratedCloseAt, text, n);
  }

  /** Nothing of the original is dropped: it is empty, or it is not blank and does not end in a
      carriage return. */
  predicate KeptWhole(original: string) {
    original == "" || (Strip(original) != "" && original[|original| - 1] != '\r')
  }

  lemma KeptSame(original: string)
    ensures Kept(original) == original <==> KeptWhole(original)
  {
    BlankPieces();
    if original != "" && original[|original| - 1] == '\r' {
      assert |DropReturn(original)| < |original|;
    }
  }

  lemma ReviewSeesOriginal(generated: string, original: string, sha: string, at: string)
    requires Token(sha) && Token(at) && !Holds(Sanitize(generated), "\n" + GENERATED_CLOSE)
    ensures Compose(generated, original, sha, at).Ok?
    ensures ReviewDescription(Compose(generated, original, sha, at).value) == Kept(original)
  {
    SanitizedEnd(generated);
    SplitUndoesBody(Sanitize(generated), original, sha, at);
  }

  /** The human original, and with it what the review prompts see, comes back verbatim exactly when it
      is empty, or is not blank and does not end in a carriage return, and the sanitised text holds no
      close marker at the start of a line. */
  lemma OriginalSurvivesIff(generated: string, original: string, sha: string, at: string)
    requires Token(sha) && Token(at)
    ensures Compose(generated, original, sha, at).Ok?
    ensures ReviewDescription(Compose(generated, original, sha, at).value) == original
       <==> KeptWhole(original) && !Holds(Sanitize(generated), "\n" + GENERATED_CLOSE)
  {
    var g := Sanitize(generated);
    if Holds(g, "\n" + GENERATED_CLOSE) {
      TooEarlyLeaks(Body(g, original, sha, at), g, original, sha, at);
    } else {
      ReviewSeesOriginal(generated, original, sha, at);
      KeptSame(original);
    }
  }

  // ---------------------------------------------------------------------------------
  // A close that comes too early leaves the written one among the human text
  // ---------------------------------------------------------------------------------

  lemma PaddedSquash(m: string, lit: string)
    requires Padded(m, lit)
    ensures Squash(m) == Squash(lit)
  {
    var i: nat :| PaddedAt(m, lit, i);
    var before, after := m[..i], m[i + |lit|..];
    assert m[i..i + |lit|] == lit;
    assert m == (before + lit) + after;
    SquashConcat(before + lit, after);
    SquashConcat(before, lit);
    SpaceSquash(before);
    SpaceSquash(after);
  }

  lemma PaddedTwiceSquash(m: string, first: string, second: string)
    requires PaddedTwice(m, first, second)
    ensures Squash(m) == Squash(first) + Squash(second)
  {
    var k: nat :| k <= |m| && Padded(m[..k], first) && Padded(m[k..], second);
    assert m == m[..k] + m[k..];
    SquashConcat(m[..k], m[k..]);
    PaddedSquash(m[..k], first);
    PaddedSquash(m[k..], second);
  }

  /** The marker texts, as values: what follows holds of any texts that can be told apart by their ends. */
  datatype Markup = Markup(close: string, details: string, open: string, sectionClose: string, detailsClose: string)

  ghost predicate OpenBy(w: Markup, m: string) {
    Padded(m, w.open) || PaddedTwice(m, w.details, w.open)
  }

  ghost predicate CloseBy(w: Markup, m: string) {
    Padded(m, w.sectionClose) || PaddedTwice(m, w.sectionClose, w.detailsClose)
  }

  ghost predicate Apart(w: Markup) {
    forall a: string, b: string :: EndApart(w, a, b)
  }

  /** Visible text that ends in the close of the block does not end in the markup behind a section. */
  ghost predicate EndApart(w: Markup, a: string, b: string) {
    && a + Squash(w.close) != b + Squash(w.sectionClose)
    && a + Squash(w.close) != b + (Squash(w.sectionClose) + Squash(w.detailsClose))
  }

  ghost function TailBy(w: Markup): string {
    "\n" + (w.sectionClose + ("\n\n" + (w.detailsClose + "\n")))
  }

  ghost function FooterBy(w: Markup, original: string): string {
    "\n\n" + (w.details + ("\n\n" + (w.open + ("\n" + (original + TailBy(w))))))
  }

  /** What is visible of the markup around a section is no more than what `compose` writes there. */
  lemma SectionMarkup(w: Markup, opening: string, closing: string)
    requires OpenBy(w, opening) && CloseBy(w, closing)
    ensures |Squash(opening)| <= |Squash(w.details)| + |Squash(w.open)|
    ensures Squash(closing) == Squash(w.sectionClose)
         || Squash(closing) == Squash(w.sectionClose) + Squash(w.detailsClose)
  {
    if Padded(opening, w.open) {
      PaddedSquash(opening, w.open);
    } else {
      PaddedTwiceSquash(opening, w.details, w.open);
    }
    if Padded(closing, w.sectionClose) {
      PaddedSquash(closing, w.sectionClose);
    } else {
      PaddedTwiceSquash(closing, w.sectionClose, w.detailsClose);
    }
  }

  /** How much is visible of the footer of an original that is not blank. */
  lemma FooterSize(w: Markup, original: string)
    ensures |Squash(FooterBy(w, original))|
         == |Squash(w.details)| + |Squash(w.open)| + |Squash(original)| + |Squash(w.sectionClose)|
            + |Squash(w.detailsClose)|
  {
    var tail := TailBy(w);
    SquashConcat("\n\n", w.details + ("\n\n" + (w.open + ("\n" + (original + tail)))));
    SquashConcat(w.details, "\n\n" + (w.open + ("\n" + (original + tail))));
    SquashConcat("\n\n", w.open + ("\n" + (original + tail)));
    SquashConcat(w.open, "\n" + (original + tail));
    SquashConcat("\n", original + tail);
    SquashConcat(original, tail);
    TailSize(w);
    NewlinesSquash();
  }

  lemma NewlinesSquash()
    ensures Squash("\n") == "" && Squash("\n\n") == "" && Squash("") == ""
  {
    SpaceSquash("\n");
    SpaceSquash("\n\n");
  }

  lemma TailSize(w: Markup)
    ensures |Squash(TailBy(w))| == |Squash(w.sectionClose)| + |Squash(w.detailsClose)|
  {
    SquashConcat("\n", w.sectionClose + ("\n\n" + (w.detailsClose + "\n")));
    SquashConcat(w.sectionClose, "\n\n" + (w.detailsClose + "\n"));
    SquashConcat("\n\n", w.detailsClose + "\n");
    SquashConcat(w.detailsClose, "\n");
    NewlinesSquash();
  }

  lemma SquashStarts(s: string)
    requires s != "" && !IsSpace(s[0])
    ensures Squash(s) != ""
  {
  }

  lemma CloseEnds(text: string, s: nat)
    requires GeneratedCloseAt(text, s).Some?
    ensures s < |text| && GeneratedCloseAt(text, s).value.end <= s + 2 + |GENERATED_CLOSE|
    ensures text[s] == '\n' ==> GeneratedCloseAt(text, s).value.end == s + 1 + |GENERATED_CLOSE|
  {
  }

  /** Where the block ends when a close marker stands at the start of a line of `g`. */
  lemma EarlyEnd(text: string, n: nat, g: string, i: nat)
    requires At(text, n, g) && At(g, i, "\n" + GENERATED_CLOSE)
    ensures Search(GeneratedCloseAt, text, n).Some? && Search(GeneratedCloseAt, text, n).value.end <= n + |g|
  {
    EarlyClose(text, n, g, i);
    NewlineStands(text, n, g, i, GENERATED_CLOSE);
    GeneratedCloseIsProper();
    SearchIsFirst(GeneratedCloseAt, text, n, n + i);
    SearchFinds(GeneratedCloseAt, text, n);
    CloseEnds(text, Search(GeneratedCloseAt, text, n).value.start);
  }

  lemma NewlineStands(text: string, n: nat, g: string, i: nat, marker: string)
    requires At(text, n, g) && At(g, i, "\n" + marker)
    ensures n + i < |text| && text[n + i] == '\n' && i + 1 + |marker| <= |g|
  {
    assert g[i] == ("\n" + marker)[0];
    assert text[n + i] == g[i];
  }

  lemma EarlyBlock(text: string, n: nat, g: string, sha: string, at: string)
    requires Search(GeneratedOpenAt, text, 0) == Some(Match(0, n, Some(Header("v1", sha, at))))
    requires At(text, n, g) && Holds(g, "\n" + GENERATED_CLOSE)
    ensures CutBlock(text).block.Some? && CutBlock(text).lead == "" && CutBlock(text).end <= n + |g|
  {
    var i: nat :| At(g, i, "\n" + GENERATED_CLOSE);
    EarlyEnd(text, n, g, i);
  }

  lemma {:induction false} NoSpaceSquash(s: string)
    requires forall k :: 0 <= k < |s| ==> !IsSpace(s[k])
    ensures Squash(s) == s
  {
    if s != "" {
      NoSpaceSquash(s[1..]);
    }
  }

  /** The visible end of a marker. */
  ghost predicate EndsVisibly(lit: string, end: string) {
    |end| <= |Squash(lit)| && Squash(lit)[|Squash(lit)| - |end|..] == end
  }

  lemma MarkerEnd(lit: string, a: string, x: string)
    requires lit == a + (x + (" " + "-->")) && |x| == 1 && !IsSpace(x[0])
    ensures EndsVisibly(lit, x + "-->")
  {
    SquashConcat(a, x + (" " + "-->"));
    WordThenArrow(x);
    EndOf(Squash(lit), Squash(a), x + "-->");
  }

  lemma WordThenArrow(x: string)
    requires |x| == 1 && !IsSpace(x[0])
    ensures Squash(x + (" " + "-->")) == x + "-->"
  {
    WordsAround(x, " ", "-->");
  }

  lemma WordsAround(x: string, space: string, y: string)
    requires AllSpace(space)
    requires (forall k :: 0 <= k < |x| ==> !IsSpace(x[k])) && forall k :: 0 <= k < |y| ==> !IsSpace(y[k])
    ensures Squash(x + (space + y)) == x + y
  {
    SquashOfThree(x, space, y);
    NoSpaceSquash(x);
    NoSpaceSquash(y);
    SpaceSquash(space);
    assert "" + y == y;
  }

  lemma EndOf(s: string, a: string, end: string)
    requires s == a + end
    ensures |end| <= |s| && s[|s| - |end|..] == end
  {
  }

  lemma GeneratedEnd(lit: string)
    requires lit == GENERATED_CLOSE
    ensures EndsVisibly(lit, "d-->")
  {
    var a := "<!-- /prxref:generate";
    assert lit[..|a|] == a;
    SplitBehind(lit, a, "d -->");
    SplitMarker("d", "d -->");
    MarkerEnd(lit, a, "d");
  }

  lemma OriginalEnd(lit: string)
    requires lit == ORIGINAL_CLOSE
    ensures EndsVisibly(lit, "l-->")
  {
    var a := "<!-- /prxref:origina";
    assert lit[..|a|] == a;
    SplitBehind(lit, a, "l -->");
    SplitMarker("l", "l -->");
    MarkerEnd(lit, a, "l");
  }

  lemma SplitBehind(lit: string, a: string, rest: string)
    requires |a| <= |lit| && lit[..|a|] == a && lit[|a|..] == rest
    ensures lit == a + rest
  {
  }

  lemma SplitMarker(x: string, s: string)
    requires |x| == 1 && s == x + " -->"
    ensures s == x + (" " + "-->") && x + "-->" == [x[0], '-', '-', '>']
  {
  }

  lemma DetailsEnd(lit: string)
    requires lit == DETAILS_CLOSE
    ensures EndsVisibly(lit, "s>")
  {
    var a := "</detail";
    assert lit[..|a|] == a;
    SplitBehind(lit, a, "s>");
    VisibleEnd(lit, a, "s>");
  }

  lemma VisibleEnd(lit: string, a: string, end: string)
    requires lit == a + end && forall k :: 0 <= k < |end| ==> !IsSpace(end[k])
    ensures EndsVisibly(lit, end)
  {
    SquashConcat(a, end);
    NoSpaceSquash(end);
    EndOf(Squash(lit), Squash(a), end);
  }

  /** Marker texts `g`, `o` and `d` end in different visible text. */
  lemma EndsApart(a: string, g: string, b: string, o: string, d: string)
    requires |g| >= 4 && g[|g| - 4] == 'd' && g[|g| - 2] == '-'
    requires |o| >= 4 && o[|o| - 4] == 'l'
    requires |d| >= 2 && d[|d| - 2] == 's'
    ensures a + g != b + o && a + g != b + (o + d)
  {
    var s := a + g;
    assert s[|s| - 4] == 'd' && s[|s| - 2] == '-';
    var t, u := b + o, b + (o + d);
    assert t[|t| - 4] == 'l' && u[|u| - 2] == 's';
  }

  lemma MarkersEndApart(a: string, b: string, g: string, o: string, d: string)
    requires g == GENERATED_CLOSE && o == ORIGINAL_CLOSE && d == DETAILS_CLOSE
    ensures a + Squash(g) != b + Squash(o) && a + Squash(g) != b + (Squash(o) + Squash(d))
  {
    GeneratedEnd(g);
    OriginalEnd(o);
    DetailsEnd(d);
    TextsEndApart(a, b, g, o, d);
  }

  lemma TextsEndApart(a: string, b: string, g: string, o: string, d: string)
    requires EndsVisibly(g, "d-->") && EndsVisibly(o, "l-->") && EndsVisibly(d, "s>")
    ensures a + Squash(g) != b + Squash(o) && a + Squash(g) != b + (Squash(o) + Squash(d))
  {
    EndChars(Squash(g), "d-->");
    EndChars(Squash(o), "l-->");
    EndChars(Squash(d), "s>");
    EndsApart(a, Squash(g), b, Squash(o), Squash(d));
  }

  lemma EndChars(s: string, end: string)
    requires |end| <= |s| && s[|s| - |end|..] == end
    ensures forall k :: 0 <= k < |end| ==> s[|s| - |end| + k] == end[k]
  {
    forall k | 0 <= k < |end| ensures s[|s| - |end| + k] == end[k] {
      assert s[|s| - |end|..][k] == end[k];
    }
  }

  lemma MarkersAreApart(w: Markup)
    requires w.close == GENERATED_CLOSE && w.sectionClose == ORIGINAL_CLOSE && w.detailsClose == DETAILS_CLOSE
    ensures Apart(w)
  {
    forall a: string, b: string ensures EndApart(w, a, b) {
      MarkersEndApart(a, b, w.close, w.sectionClose, w.detailsClose);
    }
  }

  /** The rest of a body behind an early close: it ends in the written close and the footer, and it is
      cut around a section or not. */
  ghost predicate Behind(w: Markup, rest: string, before: string, footer: string, b: Back,
                         opening: string, closing: string)
  {
    && rest == before + ("\n" + (w.close + footer))
    && rest == b.gap + (opening + (b.stored + (closing + b.tail)))
    && if b.hasSection then OpenBy(w, opening) && CloseBy(w, closing) else opening == "" && closing == ""
  }

  lemma SquashOfThree(a: string, b: string, c: string)
    ensures Squash(a + (b + c)) == Squash(a) + (Squash(b) + Squash(c))
  {
    SquashConcat(a, b + c);
    SquashConcat(b, c);
  }

  lemma SquashOfFive(a: string, b: string, c: string, d: string, e: string)
    ensures Squash(a + (b + (c + (d + e)))) == Squash(a) + (Squash(b) + (Squash(c) + (Squash(d) + Squash(e))))
  {
    SquashOfThree(a, b, c + (d + e));
    SquashOfThree(c, d, e);
  }

  /** The visible text of the rest, read both ways. */
  lemma BehindSquash(w: Markup, rest: string, before: string, footer: string, b: Back, opening: string, closing: string)
    requires Behind(w, rest, before, footer, b, opening, closing)
    ensures Squash(rest) == Squash(before) + (Squash(w.close) + Squash(footer))
    ensures Squash(rest)
         == Squash(b.gap) + (Squash(opening) + (Squash(b.stored) + (Squash(closing) + Squash(b.tail))))
  {
    LineSquash(before, w.close, footer);
    SquashOfFive(b.gap, opening, b.stored, closing, b.tail);
  }

  lemma LineSquash(before: string, close: string, footer: string)
    ensures Squash(before + ("\n" + (close + footer))) == Squash(before) + (Squash(close) + Squash(footer))
  {
    SquashOfThree(before, "\n", close + footer);
    SquashConcat(close, footer);
    NewlinesSquash();
  }

  lemma CloseIsVisible(w: Markup)
    requires Apart(w)
    ensures Squash(w.close) != ""
  {
    assert EndApart(w, Squash(w.sectionClose), "");
    assert Squash(w.sectionClose) + "" == "" + Squash(w.sectionClose);
  }

  /** The human text behind an early close is longer than the original that was stored. */
  lemma OriginalLeaks(w: Markup, rest: string, before: string, original: string, b: Back,
                      opening: string, closing: string)
    requires Apart(w) && Behind(w, rest, before, FooterBy(w, original), b, opening, closing)
    ensures Squash(b.gap) + Squash(b.stored) + Squash(b.tail) != Squash(original)
  {
    BehindSquash(w, rest, before, FooterBy(w, original), b, opening, closing);
    FooterSize(w, original);
    CloseIsVisible(w);
    if b.hasSection {
      SectionMarkup(w, opening, closing);
    } else {
      NewlinesSquash();
    }
  }

  /** And it shows the close of the block when none was stored. */
  lemma CloseLeaks(w: Markup, rest: string, before: string, b: Back, opening: string, closing: string)
    requires Apart(w) && Behind(w, rest, before, "\n", b, opening, closing)
    ensures Squash(b.gap) + Squash(b.stored) + Squash(b.tail) != ""
  {
    BehindSquash(w, rest, before, "\n", b, opening, closing);
    NewlinesSquash();
    NothingBehind(Squash(before), Squash(w.close));
    CloseIsVisible(w);
    if b.hasSection {
      SectionMarkup(w, opening, closing);
      if Squash(b.gap) == "" && Squash(b.stored) == "" && Squash(b.tail) == "" {
        OnlyMarkup(Squash(opening), Squash(closing));
        assert EndApart(w, Squash(before), Squash(opening));
      }
    }
  }

  lemma NothingBehind(before: string, close: string)
    ensures before + (close + "") == before + close
  {
  }

  lemma OnlyMarkup(opening: string, closing: string)
    ensures "" + (opening + ("" + (closing + ""))) == opening + closing
  {
  }

  lemma ReviewSquash(text: string, b: Back)
    requires CutBlock(text).lead == "" && CutBlock(text).block.Some? && b == CutOriginal(text, CutBlock(text).end)
    ensures Squash(ReviewDescription(text)) == Squash(b.gap) + Squash(b.stored) + Squash(b.tail)
  {
    var cut := Layout("", CutBlock(text).block, b.gap, b.hasSection, b.stored, b.tail);
    assert Cut(text) == cut;
    HumanTextKeepsAll(cut);
    NewlinesSquash();
    assert "" + Squash(b.gap) == Squash(b.gap);
  }

  lemma TooEarlyLeaks(text: string, g: string, original: string, sha: string, at: string)
    requires text == Body(g, original, sha, at) && Token(sha) && Token(at) && Holds(g, "\n" + GENERATED_CLOSE)
    ensures ReviewDescription(text) != original
  {
    var n := HeaderLength(sha, at);
    var rest := "\n" + (GENERATED_CLOSE + Footer(original));
    BodyOpens(text, sha, at, g + rest, n);
    ReadsOn(text, n, g, rest);
    EarlyBlock(text, n, g, sha, at);
    RestLeaks(text, n + |g|, Footer(original), original);
  }

  /** What stands behind a block that ends too early shows more than the original. */
  lemma RestLeaks(text: string, m: nat, footer: string, original: string)
    requires CutBlock(text).block.Some? && CutBlock(text).lead == "" && CutBlock(text).end <= m
    requires Reads(text, m, "\n" + (GENERATED_CLOSE + footer)) && footer == Footer(original)
    ensures ReviewDescription(text) != original
  {
    var w := Markup(GENERATED_CLOSE, DETAILS_OPEN, ORIGINAL_OPEN, ORIGINAL_CLOSE, DETAILS_CLOSE);
    var pos := CutBlock(text).end;
    var opening, closing := BackCovers(text, pos);
    var b := CutOriginal(text, pos);
    MarkersAreApart(w);
    ReviewSquash(text, b);
    RestSplits(text, pos, m, "\n" + (GENERATED_CLOSE + footer));
    assert Behind(w, text[pos..], text[pos..m], footer, b, opening, closing);
    StripKeepsText(original);
    if Strip(original) == "" {
      CloseLeaks(w, text[pos..], text[pos..m], b, opening, closing);
    } else {
      OriginalLeaks(w, text[pos..], text[pos..m], original, b, opening, closing);
    }
  }

  lemma RestSplits(text: string, pos: nat, m: nat, rest: string)
    requires pos <= m && Reads(text, m, rest)
    ensures text[pos..] == text[pos..m] + rest
  {
  }

  /** Regenerating from the split original writes the very body a first generation would: blocks
      never nest, and the original is carried over any number of regenerations. */
  lemma RegeneratingDoesNotNest(first: string, second: string, original: string, sha: string, at: string,
                                sha': string, at': string)
    requires Token(sha) && Token(at) && Token(sha') && Token(at')
    requires !Holds(Sanitize(first), "\n" + GENERATED_CLOSE)
    requires Strip(original) == "" || original[|original| - 1] != '\r'
    ensures Compose(first, original, sha, at).Ok?
    ensures Compose(second, ReviewDescription(Compose(first, original, sha, at).value), sha', at')
         == Compose(second, original, sha', at')
  {
    ReviewSeesOriginal(first, original, sha, at);
    SameComposed(second, original, sha', at');
  }

  lemma SameComposed(g: string, original: string, sha: string, at: string)
    requires Strip(original) == "" || original[|original| - 1] != '\r'
    ensures Compose(g, Kept(original), sha, at) == Compose(g, original, sha, at)
  {
    KeptCases(original);
    if Strip(original) == "" {
      SameWhenBlank(g, original, Kept(original), sha, at);
    }
  }

  /** Blank originals are not stored, so they make the same body. */
  lemma SameWhenBlank(g: string, a: string, b: string, sha: string, at: string)
    requires Strip(a) == "" && Strip(b) == ""
    ensures Compose(g, a, sha, at) == Compose(g, b, sha, at)
  {
    assert Footer(a) == "\n" && Footer(b) == "\n";
  }

  lemma KeptCases(original: string)
    requires Strip(original) == "" || original[|original| - 1] != '\r'
    ensures if Strip(original) == "" then Strip(Kept(original)) == "" else Kept(original) == original
  {
    BlankPieces();
  }

  /** `review_description`: the human text only. */
  function ReviewDescription(text: string): string {
    Split(text).original
  }

  lemma SectionsAreVisible(opening: string, closing: string)
    requires SectionOpenText(opening) && SectionCloseText(closing)
    ensures Squash(opening) != ""
  {
    SquashStarts(ORIGINAL_OPEN);
    if Padded(opening, ORIGINAL_OPEN) {
      PaddedSquash(opening, ORIGINAL_OPEN);
    } else {
      PaddedTwiceSquash(opening, DETAILS_OPEN, ORIGINAL_OPEN);
    }
  }

  /** The visible text of a body, by pieces. */
  lemma TextSquash(text: string) returns (m1: string, m2: string, m3: string, m4: string, body: string)
    ensures var cut := Cut(text);
            && Squash(text) == (Squash(cut.lead) + (Squash(m1) + (Squash(body) + Squash(m2))))
                 + (Squash(cut.gap) + (Squash(m3) + (Squash(cut.stored) + (Squash(m4) + Squash(cut.tail)))))
            && (cut.block.Some? ==> GENERATED_OPEN_PREFIX <= m1)
            && (cut.hasSection ==> SectionOpenText(m3) && SectionCloseText(m4))
  {
    var cut := Cut(text);
    m1, m2, m3, m4 := CutCovers(text);
    body := if cut.block.Some? then cut.block.value.body else "";
    SquashConcat(cut.lead + (m1 + (body + m2)), cut.gap + (m3 + (cut.stored + (m4 + cut.tail))));
    SquashConcat(cut.lead, m1 + (body + m2));
    SquashConcat(m1, body + m2);
    SquashConcat(body, m2);
    SquashConcat(cut.gap, m3 + (cut.stored + (m4 + cut.tail)));
    SquashConcat(m3, cut.stored + (m4 + cut.tail));
    SquashConcat(cut.stored, m4 + cut.tail);
    SquashConcat(m4, cut.tail);
  }

  /** A body comes back unchanged exactly when it has neither a generated block nor a stored original. */
  lemma UnchangedIffNoSections(text: string)
    ensures ReviewDescription(text) == text <==> Cut(text).block.None? && !Cut(text).hasSection
  {
    var cut := Cut(text);
    if cut.block.Some? || cut.hasSection {
      var m1, m2, m3, m4, body := TextSquash(text);
      NoHumanTextIsLost(text);
      if cut.block.Some? {
        SquashStarts(m1);
      } else {
        SectionsAreVisible(m3, m4);
      }
      assert |Squash(text)| > |Squash(ReviewDescription(text))|;
    }
  }

  lemma EmptyDecision(text: string)
    requires Split(text).generated.Some?
    ensures DecideWrite(text, "empty")
         == Ok(if Strip(Split(text).original) == "" then (true, OnlyGenerated) else (false, HumanWritten))
  {
  }

  /** A body that is only a generated block may be replaced with `empty`; one that stores an original
      may not. */
  lemma EmptyModeAfterCompose(generated: string, original: string, sha: string, at: string)
    requires Token(sha) && Token(at) && !Holds(Sanitize(generated), "\n" + GENERATED_CLOSE)
    ensures DecideWrite(Body(Sanitize(generated), original, sha, at), "empty")
         == Ok(if Strip(original) == "" then (true, OnlyGenerated) else (false, HumanWritten))
  {
    SanitizedEnd(generated);
    SplitUndoesBody(Sanitize(generated), original, sha, at);
    KeptBlank(original);
    EmptyDecision(Body(Sanitize(generated), original, sha, at));
  }

  // ---------------------------------------------------------------------------------
  // Where the promise of a verbatim round trip ends
  // ---------------------------------------------------------------------------------

  lemma KeptOfReturn(original: string)
    requires Strip(original) != "" && original[|original| - 1] == '\r'
    ensures Kept(original) == original[..|original| - 1]
  {
  }

  /** An original that ends in a carriage return loses it, whatever else it holds. */
  lemma TrailingReturnIsLost(generated: string, original: string, sha: string, at: string)
    requires Token(sha) && Token(at) && !Holds(Sanitize(generated), "\n" + GENERATED_CLOSE)
    requires Strip(original) != "" && original[|original| - 1] == '\r'
    ensures Compose(generated, original, sha, at).Ok?
    ensures ReviewDescription(Compose(generated, original, sha, at).value) == original[..|original| - 1]
  {
    ReviewSeesOriginal(generated, original, sha, at);
    KeptOfReturn(original);
  }

  ghost predicate NoneIn(m: EndMatcher, text: string, i: nat, j: nat) {
    forall k :: i <= k < j ==> m(text, k).None?
  }

  lemma {:induction false} PlainTextIsCopied(m: EndMatcher, text: string, i: nat, j: nat)
    requires Advances(m) && i <= j <= |text| && NoneIn(m, text, i, j)
    ensures Removed(m, text, i) == text[i..j] + Removed(m, text, j)
    decreases j - i
  {
    if i < j {
      PlainTextIsCopied(m, text, i + 1, j);
      SliceHead(text, i, j, Removed(m, text, j));
    } else {
      EmptySlice(text, i, Removed(m, text, j));
    }
  }

  lemma SliceHead(text: string, i: nat, j: nat, rest: string)
    requires i < j <= |text|
    ensures [text[i]] + (text[i + 1..j] + rest) == text[i..j] + rest
  {
  }

  lemma EmptySlice(text: string, i: nat, rest: string)
    requires i <= |text|
    ensures rest == text[i..i] + rest
  {
  }

  lemma OneRemoved(m: EndMatcher, a: string, inner: string, c: string)
    requires Advances(m) && inner != ""
    requires var text := a + (inner + c);
      && NoneIn(m, text, 0, |a|) && NoneIn(m, text, |a| + |inner|, |text|)
      && m(text, |a|) == Some(|a| + |inner|)
    ensures Removed(m, a + (inner + c), 0) == a + c
  {
    var text := a + (inner + c);
    PlainTextIsCopied(m, text, 0, |a|);
    PlainTextIsCopied(m, text, |a| + |inner|, |text|);
    assert text[0..|a|] == a && text[|a| + |inner|..|text|] == c;
  }

  /** Removal is one pass, so taking a marker away can put another one together: this text comes out
      with a close marker at the start of a line. */
  lemma OnePassCanLeaveAMarker()
    ensures Holds(Sanitize("x\n<!-- /prx" + ("<!-- prxref:original -->" + "ref:generated -->")), "\n" + GENERATED_CLOSE)
  {
    MarkerIsLeft("x\n<!-- /prx", "<!-- prxref:original -->", "ref:generated -->");
  }

  lemma MarkerIsLeft(a: string, m: string, c: string)
    requires a == "x\n<!-- /prx" && m == "<!-- prxref:original -->" && c == "ref:generated -->"
    ensures Holds(Sanitize(a + (m + c)), "\n" + GENERATED_CLOSE)
  {
    MarkersAdvance();
    LastSlice(a, m, c);
    HalfMarkerStays(a + (m + c), a, m + c);
    InnerMarkerGoes(a + (m + c), |a|, m, c);
    RestStays(a + (m + c), |a| + |m|, c);
    OneRemoved(AnyMarkerAt, a, m, c);
    JoinedMarker(a, c);
    NothingToStrip(a + c);
  }

  lemma RestStays(text: string, i: nat, c: string)
    requires i <= |text| && text[i..] == c && c == "ref:generated -->"
    ensures NoneIn(AnyMarkerAt, text, i, |text|)
  {
    forall k | i <= k < |text| ensures AnyMarkerAt(text, k).None? {
      assert text[k] == c[k - i];
      assert "<!--"[0] == '<';
    }
  }

  lemma LastSlice(a: string, m: string, c: string)
    ensures |a| + |m| <= |a + (m + c)| && (a + (m + c))[|a|..] == m + c && (a + (m + c))[|a| + |m|..] == c
  {
  }

  lemma JoinedMarker(a: string, c: string)
    requires a == "x\n<!-- /prx" && c == "ref:generated -->"
    ensures Holds(a + c, "\n" + GENERATED_CLOSE)
  {
    assert "\n" + GENERATED_CLOSE == a[1..] + c;
    AtConcat("x", a[1..] + c, "");
    assert "x" + (a[1..] + c + "") == a + c;
  }

  lemma NothingToStrip(s: string)
    requires s != "" && !IsSpace(s[0]) && !IsSpace(s[|s| - 1])
    ensures Strip(s) == s
  {
  }

  lemma HalfMarkerStays(text: string, a: string, rest: string)
    requires a == "x\n<!-- /prx" && text == a + rest && rest != "" && rest[0] == '<'
    ensures NoneIn(AnyMarkerAt, text, 0, |a|)
  {
    forall k | 0 <= k < |a| ensures AnyMarkerAt(text, k).None? {
      assert text[k] == a[k];
      if k == 2 {
        assert text[6] == a[6] && text[7] == a[7] && text[8] == a[8];
        HalfMarker(text);
      } else {
        NotOpening(text, k);
      }
    }
  }

  lemma NotOpening(text: string, k: nat)
    requires k < |text| && text[k] != '<'
    ensures AnyMarkerAt(text, k).None?
  {
    assert "<!--"[0] == '<';
  }

  lemma HalfMarker(text: string)
    requires |text| > 11 && text[6] == ' ' && text[7] == '/' && text[8] == 'p' && text[11] == '<'
    ensures AnyMarkerAt(text, 2).None?
  {
    RunEndIs(text, 6, IsSpace, 7);
    RunEndIs(text, 8, IsSpace, 8);
    assert "prxref:"[3] == 'r';
  }

  lemma InnerMarkerGoes(text: string, i: nat, m: string, c: string)
    requires m == "<!-- prxref:original -->" && i <= |text| && text[i..] == m + c
    ensures AnyMarkerAt(text, i) == Some(i + |m|)
  {
    InnerMarkerOpens(text, i, m, c);
    InnerMarkerEnds(text, i, m, c);
  }

  lemma InnerMarkerOpens(text: string, i: nat, m: string, c: string)
    requires m == "<!-- prxref:original -->" && i <= |text| && text[i..] == m + c
    ensures At(text, i, "<!--") && At(text, i + 5, "prxref:") && text[i + 5] == 'p'
    ensures RunEnd(text, i + 4, IsSpace) == i + 5
  {
    forall k | 0 <= k < |m| ensures text[i + k] == m[k] { assert text[i..][k] == m[k]; }
    assert text[i + 4] == ' ' && text[i + 5] == 'p';
    assert RunEnd(text, i + 4, IsSpace) == i + 5 by { assert RunEnd(text, i + 5, IsSpace) == i + 5; }
  }

  lemma InnerMarkerEnds(text: string, i: nat, m: string, c: string)
    requires m == "<!-- prxref:original -->" && i <= |text| && text[i..] == m + c
    ensures At(text, i + 12, "original") && text[i + 12] == 'o' && text[i + 20] == ' '
    ensures FirstAfter(text, i + 20, "-->") == Some(i + 24)
  {
    forall k | 0 <= k < |m| ensures text[i + k] == m[k] { assert text[i..][k] == m[k]; }
    assert text[i + 12] == 'o' && text[i + 20] == ' ' && text[i + 21] == '-';
    assert At(text, i + 21, "-->");
    assert FirstAfter(text, i + 21, "-->") == Some(i + 24);
    assert FirstAfter(text, i + 20, "-->") == Some(i + 24);
  }
}
