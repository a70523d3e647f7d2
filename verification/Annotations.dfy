/** Rendering findings as workflow-command annotation lines: each is one line that reads back to what
    was written, and the lines kept are the most severe. */
module Annotations {
  import opened Prelude
  import opened Sorting

  // ---------------------------------------------------------------------------------
  // Escaping
  // ---------------------------------------------------------------------------------

  /** `value` with every character replaced by its text. */
  function Spell(value: string, text: char -> string): string {
    if value == "" then "" else text(value[0]) + Spell(value[1..], text)
  }

  function One(c: char, w: string): char -> string {
    x => if x == c then w else [x]
  }

  /** `str.replace` of one character. */
  function Replace(value: string, c: char, w: string): string {
    Spell(value, One(c, w))
  }

  function EscapeData(value: string): string {
    Replace(Replace(Replace(value, '%', "%25"), '\r', "%0D"), '\n', "%0A")
  }

  function EscapeProperty(value: string): string {
    Replace(Replace(EscapeData(value), ':', "%3A"), ',', "%2C")
  }

  function DataChar(c: char): string {
    if c == '%' then "%25" else if c == '\r' then "%0D" else if c == '\n' then "%0A" else [c]
  }

  function PropertyChar(c: char): string {
    if c == ':' then "%3A" else if c == ',' then "%2C" else DataChar(c)
  }

  lemma {:induction false} SpellConcat(a: string, b: string, text: char -> string)
    ensures Spell(a + b, text) == Spell(a, text) + Spell(b, text)
  {
    if a == "" {
      assert a + b == b;
    } else {
      assert (a + b)[1..] == a[1..] + b;
      SpellConcat(a[1..], b, text);
    }
  }

  /** Spelling twice is spelling once, when each character's two spellings are its one. */
  lemma {:induction false} SpellTwice(value: string, f: char -> string, g: char -> string, h: char -> string)
    requires forall c :: Spell(f(c), g) == h(c)
    ensures Spell(Spell(value, f), g) == Spell(value, h)
  {
    if value != "" {
      SpellTwice(value[1..], f, g, h);
      SpellConcat(f(value[0]), Spell(value[1..], f), g);
    }
  }

  lemma SpelledOne(x: char, c: char, w: string)
    ensures Replace([x], c, w) == if x == c then w else [x]
  {
    var s, text := [x], One(c, w);
    assert s[0] == x && s[1..] == "";
    assert Spell(s, text) == text(x) + Spell(s[1..], text) == text(x);
  }

  lemma {:induction false} SpelledKept(s: string, c: char, w: string)
    requires c !in s
    ensures Replace(s, c, w) == s
  {
    if s != "" { SpelledKept(s[1..], c, w); }
  }

  /** A later replace rewrites a character of its own, and leaves what an earlier one wrote. */
  lemma NextReplace(x: char, text: string, c: char, w: string)
    requires text == [x] || (c !in text && x != c)
    ensures Replace(text, c, w) == if x == c then w else text
  {
    SpelledOne(x, c, w);
    if c !in text { SpelledKept(text, c, w); }
  }

  function PercentChar(c: char): string {
    if c == '%' then "%25" else [c]
  }

  function ReturnChar(c: char): string {
    if c == '\r' then "%0D" else PercentChar(c)
  }

  function ColonChar(c: char): string {
    if c == ':' then "%3A" else DataChar(c)
  }

  /** The chained replaces are one per-character map: no replace touches what an earlier one wrote. */
  lemma DataIsPerCharacter(value: string)
    ensures EscapeData(value) == Spell(value, DataChar)
  {
    SameSpelling(value, One('%', "%25"), PercentChar);
    forall c ensures Spell(PercentChar(c), One('\r', "%0D")) == ReturnChar(c) {
      NextReplace(c, PercentChar(c), '\r', "%0D");
    }
    SpellTwice(value, PercentChar, One('\r', "%0D"), ReturnChar);
    forall c ensures Spell(ReturnChar(c), One('\n', "%0A")) == DataChar(c) {
      NextReplace(c, ReturnChar(c), '\n', "%0A");
    }
    SpellTwice(value, ReturnChar, One('\n', "%0A"), DataChar);
  }

  lemma PropertyIsPerCharacter(value: string)
    ensures EscapeProperty(value) == Spell(value, PropertyChar)
  {
    DataIsPerCharacter(value);
    ColonStep(value);
    CommaStep(value);
  }

  lemma ColonStep(value: string)
    ensures Replace(Spell(value, DataChar), ':', "%3A") == Spell(value, ColonChar)
  {
    forall c ensures Spell(DataChar(c), One(':', "%3A")) == ColonChar(c) {
      NextReplace(c, DataChar(c), ':', "%3A");
    }
    SpellTwice(value, DataChar, One(':', "%3A"), ColonChar);
  }

  lemma CommaStep(value: string)
    ensures Replace(Spell(value, ColonChar), ',', "%2C") == Spell(value, PropertyChar)
  {
    forall c ensures Spell(ColonChar(c), One(',', "%2C")) == PropertyChar(c) {
      NextReplace(c, ColonChar(c), ',', "%2C");
    }
    SpellTwice(value, ColonChar, One(',', "%2C"), PropertyChar);
  }

  lemma {:induction false} SameSpelling(value: string, f: char -> string, g: char -> string)
    requires forall c :: f(c) == g(c)
    ensures Spell(value, f) == Spell(value, g)
  {
    if value != "" { SameSpelling(value[1..], f, g); }
  }

  // ---------------------------------------------------------------------------------
  // Decoding
  // ---------------------------------------------------------------------------------

  function HexValue(c: char): Option<nat> {
    if '0' <= c <= '9' then Some(c as int - '0' as int)
    else if 'A' <= c <= 'F' then Some(c as int - 'A' as int + 10)
    else None
  }

  /** Percent-decoding: `%` and two hexadecimal digits are the character they name. */
  function Decode(s: string): string {
    if s == "" then ""
    else if s[0] == '%' && |s| >= 3 && HexValue(s[1]).Some? && HexValue(s[2]).Some? then
      [(HexValue(s[1]).value * 16 + HexValue(s[2]).value) as char] + Decode(s[3..])
    else [s[0]] + Decode(s[1..])
  }

  ghost predicate Escapes(text: char -> string) {
    forall c, rest :: Decode(text(c) + rest) == [c] + Decode(rest)
  }

  lemma DecodeStep(c: char, w: string, rest: string)
    requires (w == [c] && c != '%')
          || (|w| == 3 && w[0] == '%' && HexValue(w[1]).Some? && HexValue(w[2]).Some?
              && HexValue(w[1]).value * 16 + HexValue(w[2]).value == c as int)
    ensures Decode(w + rest) == [c] + Decode(rest)
  {
    var s := w + rest;
    assert s[|w|..] == rest;
  }

  lemma PropertyEscapes()
    ensures Escapes(PropertyChar) && Escapes(DataChar)
  {
    forall c, rest ensures Decode(PropertyChar(c) + rest) == [c] + Decode(rest) {
      DecodeStep(c, PropertyChar(c), rest);
    }
    forall c, rest ensures Decode(DataChar(c) + rest) == [c] + Decode(rest) {
      DecodeStep(c, DataChar(c), rest);
    }
  }

  lemma {:induction false} DecodeSpelled(value: string, text: char -> string)
    requires Escapes(text)
    ensures Decode(Spell(value, text)) == value
  {
    if value != "" {
      DecodeSpelled(value[1..], text);
      assert Decode(text(value[0]) + Spell(value[1..], text)) == [value[0]] + Decode(Spell(value[1..], text));
    }
  }

  /** Percent-decoding undoes both escapes. */
  lemma DecodeUndoesEscape(value: string)
    ensures Decode(EscapeData(value)) == value && Decode(EscapeProperty(value)) == value
  {
    PropertyEscapes();
    DataIsPerCharacter(value);
    PropertyIsPerCharacter(value);
    DecodeSpelled(value, DataChar);
    DecodeSpelled(value, PropertyChar);
  }

  lemma {:induction false} SpellAvoids(value: string, text: char -> string, bad: char)
    requires forall c :: bad !in text(c)
    ensures bad !in Spell(value, text)
  {
    if value != "" { SpellAvoids(value[1..], text, bad); }
  }

  /** The characters that end a line, a property or the command are gone. */
  lemma DataAvoids(value: string)
    ensures '\n' !in EscapeData(value) && '\r' !in EscapeData(value)
  {
    DataIsPerCharacter(value);
    SpellAvoids(value, DataChar, '\n');
    SpellAvoids(value, DataChar, '\r');
  }

  lemma EscapeAvoids(w: string, bad: char)
    requires |w| == 3 && w[0] == '%' && HexValue(w[1]).Some? && HexValue(w[2]).Some?
    requires bad == '\n' || bad == '\r' || bad == ':' || bad == ','
    ensures bad !in w
  {
  }

  lemma PropertyCharAvoids(c: char, bad: char)
    requires bad == '\n' || bad == '\r' || bad == ':' || bad == ','
    ensures bad !in PropertyChar(c)
  {
    if |PropertyChar(c)| == 3 {
      EscapeAvoids(PropertyChar(c), bad);
    }
  }

  lemma PropertyAvoids(value: string, bad: char)
    requires bad == '\n' || bad == '\r' || bad == ':' || bad == ','
    ensures bad !in EscapeProperty(value)
  {
    PropertyIsPerCharacter(value);
    forall c ensures bad !in PropertyChar(c) {
      PropertyCharAvoids(c, bad);
    }
    SpellAvoids(value, PropertyChar, bad);
  }

  // ---------------------------------------------------------------------------------
  // The line
  // ---------------------------------------------------------------------------------

  /** `path` is empty for a finding with none, and a line below 1 counts as none. */
  datatype Finding = Finding(path: string, line: int, severity: string, title: string, body: string)

  function Digit(d: nat): char
    requires d < 10
  {
    ('0' as int + d) as char
  }

  function Decimal(n: nat): (r: string)
    ensures r != "" && forall c :: c in r ==> '0' <= c <= '9'
  {
    if n < 10 then [Digit(n)] else Decimal(n / 10) + [Digit(n % 10)]
  }

  function ReadDecimal(s: string): int {
    if s == "" then 0 else ReadDecimal(s[..|s| - 1]) * 10 + (s[|s| - 1] as int - '0' as int)
  }

  lemma {:induction false} DecimalReadsBack(n: nat)
    ensures ReadDecimal(Decimal(n)) == n
  {
    var s := Decimal(n);
    if n < 10 {
      assert s[..0] == "";
    } else {
      DecimalReadsBack(n / 10);
      assert s[..|s| - 1] == Decimal(n / 10);
    }
  }

  /** `fold` strips and lower-cases a severity. */
  function Command(fold: string -> string, f: Finding): string {
    var severity := fold(f.severity);
    if severity == "error" || severity == "warning" then severity else "notice"
  }

  type Property = (string, string)

  function PropertiesOf(f: Finding): seq<Property> {
    var title := [("title", f.title)];
    var line := if f.line > 0 then [("line", Decimal(f.line))] + title else title;
    if f.path != "" then [("file", f.path)] + line else line
  }

  function Rendered(p: Property): string {
    p.0 + "=" + EscapeProperty(p.1)
  }

  /** The rendered properties, with commas between them. */
  function Joined(props: seq<Property>): string {
    if props == [] then ""
    else if |props| == 1 then Rendered(props[0])
    else Rendered(props[0]) + ("," + Joined(props[1..]))
  }

  function Head(command: string, props: seq<Property>): string {
    command + (" " + Joined(props))
  }

  function Line(command: string, props: seq<Property>, body: string): string {
    "::" + (Head(command, props) + ("::" + EscapeData(body)))
  }

  function AnnotationLine(fold: string -> string, f: Finding): string {
    Line(Command(fold, f), PropertiesOf(f), f.body)
  }

  // ---------------------------------------------------------------------------------
  // Reading a line back
  // ---------------------------------------------------------------------------------

  datatype Parsed = Parsed(command: string, properties: seq<Property>, message: string)

  /** Where `c` first stands in `s`, or the end. */
  function Find(s: string, c: char): (r: nat)
    ensures r <= |s|
  {
    if s == "" || s[0] == c then 0 else Find(s[1..], c) + 1
  }

  function FindColons(s: string): (r: nat)
    ensures r <= |s|
  {
    if s == "" || (|s| >= 2 && s[0] == ':' && s[1] == ':') then 0 else FindColons(s[1..]) + 1
  }

  function ReadProperty(s: string): Property {
    var k := Find(s, '=');
    (s[..k], if k < |s| then Decode(s[k + 1..]) else "")
  }

  function ReadProperties(s: string): seq<Property>
    decreases |s|
  {
    var k := Find(s, ',');
    if k < |s| then [ReadProperty(s[..k])] + ReadProperties(s[k + 1..]) else [ReadProperty(s)]
  }

  function ReadHead(head: string): (string, seq<Property>) {
    var sp := Find(head, ' ');
    (head[..sp], if sp < |head| then ReadProperties(head[sp + 1..]) else [])
  }

  /** What a line commands: the text between the first two `::` is the command, a space and the
      properties; the rest is the message. */
  function Parse(line: string): Option<Parsed> {
    if |line| < 2 || line[..2] != "::" then None
    else
      var rest := line[2..];
      var k := FindColons(rest);
      if k + 2 > |rest| then None
      else
        var head := ReadHead(rest[..k]);
        Some(Parsed(head.0, head.1, Decode(rest[k + 2..])))
  }

  lemma {:induction false} FindBehind(a: string, c: char, b: string)
    requires c !in a
    ensures Find(a + ([c] + b), c) == |a|
    ensures (a + ([c] + b))[..|a|] == a && (a + ([c] + b))[|a| + 1..] == b
  {
    var s := a + ([c] + b);
    if a != "" {
      assert s[1..] == a[1..] + ([c] + b);
      FindBehind(a[1..], c, b);
    }
  }

  lemma {:induction false} FindNowhere(a: string, c: char)
    requires c !in a
    ensures Find(a, c) == |a|
  {
    if a != "" { FindNowhere(a[1..], c); }
  }

  lemma {:induction false} FindColonsBehind(a: string, b: string)
    requires ':' !in a
    ensures FindColons(a + ("::" + b)) == |a|
    ensures (a + ("::" + b))[..|a|] == a && (a + ("::" + b))[|a| + 2..] == b
  {
    var s := a + ("::" + b);
    if a != "" {
      assert s[1..] == a[1..] + ("::" + b);
      FindColonsBehind(a[1..], b);
    }
  }

  /** A property name that can be rendered and read back. */
  ghost predicate Plain(name: string) {
    forall c :: c in name ==> 'a' <= c <= 'z'
  }

  lemma RenderedAvoids(p: Property, bad: char)
    requires Plain(p.0) && (bad == '\n' || bad == '\r' || bad == ':' || bad == ',')
    ensures bad !in Rendered(p)
  {
    PropertyAvoids(p.1, bad);
  }

  lemma PropertyReadsBack(p: Property)
    requires Plain(p.0)
    ensures ReadProperty(Rendered(p)) == p
  {
    var value := EscapeProperty(p.1);
    FindBehind(p.0, '=', value);
    assert Rendered(p) == p.0 + (['='] + value);
    DecodeUndoesEscape(p.1);
  }

  lemma ReadFirst(first: string, rest: string)
    requires ',' !in first
    ensures ReadProperties(first + ("," + rest)) == [ReadProperty(first)] + ReadProperties(rest)
  {
    FindBehind(first, ',', rest);
    assert "," == [','];
  }

  lemma ReadLast(last: string)
    requires ',' !in last
    ensures ReadProperties(last) == [ReadProperty(last)]
  {
    FindNowhere(last, ',');
  }

  lemma {:induction false} PropertiesReadBack(props: seq<Property>)
    requires props != [] && forall i :: 0 <= i < |props| ==> Plain(props[i].0)
    ensures ReadProperties(Joined(props)) == props
  {
    RenderedAvoids(props[0], ',');
    PropertyReadsBack(props[0]);
    if |props| == 1 {
      ReadLast(Rendered(props[0]));
    } else {
      PropertiesReadBack(props[1..]);
      ReadFirst(Rendered(props[0]), Joined(props[1..]));
    }
  }

  lemma {:induction false} JoinedAvoids(props: seq<Property>, bad: char)
    requires bad == '\n' || bad == '\r' || bad == ':'
    requires forall i :: 0 <= i < |props| ==> Plain(props[i].0)
    ensures bad !in Joined(props)
  {
    if props != [] {
      RenderedAvoids(props[0], bad);
      if |props| > 1 { JoinedAvoids(props[1..], bad); }
    }
  }

  lemma HeadAvoids(command: string, props: seq<Property>, bad: char)
    requires bad == '\n' || bad == '\r' || bad == ':'
    requires Plain(command) && forall i :: 0 <= i < |props| ==> Plain(props[i].0)
    ensures bad !in Head(command, props)
  {
    JoinedAvoids(props, bad);
  }

  lemma HeadReadsBack(command: string, props: seq<Property>)
    requires Plain(command) && props != [] && forall i :: 0 <= i < |props| ==> Plain(props[i].0)
    ensures ReadHead(Head(command, props)) == (command, props)
  {
    FindBehind(command, ' ', Joined(props));
    assert " " == [' '];
    PropertiesReadBack(props);
  }

  lemma PartsReadBack(line: string, head: string, message: string)
    requires ':' !in head && line == "::" + (head + ("::" + message))
    ensures Parse(line) == Some(Parsed(ReadHead(head).0, ReadHead(head).1, Decode(message)))
  {
    FindColonsBehind(head, message);
    assert line[..2] == "::" && line[2..] == head + ("::" + message);
  }

  /** A line reads back to its command, properties and message. */
  lemma LineReadsBack(command: string, props: seq<Property>, body: string)
    requires Plain(command) && props != [] && forall i :: 0 <= i < |props| ==> Plain(props[i].0)
    ensures Parse(Line(command, props, body)) == Some(Parsed(command, props, body))
  {
    HeadAvoids(command, props, ':');
    HeadReadsBack(command, props);
    DecodeUndoesEscape(body);
    PartsReadBack(Line(command, props, body), Head(command, props), EscapeData(body));
  }

  /** It is one line. */
  lemma LineIsOneLine(command: string, props: seq<Property>, body: string)
    requires Plain(command) && forall i :: 0 <= i < |props| ==> Plain(props[i].0)
    ensures '\n' !in Line(command, props, body) && '\r' !in Line(command, props, body)
  {
    HeadAvoids(command, props, '\n');
    HeadAvoids(command, props, '\r');
    DataAvoids(body);
  }

  lemma NamesArePlain(fold: string -> string, f: Finding)
    ensures Plain(Command(fold, f)) && PropertiesOf(f) != []
    ensures forall i :: 0 <= i < |PropertiesOf(f)| ==> Plain(PropertiesOf(f)[i].0)
  {
  }

  lemma DigitStays(c: char)
    requires '0' <= c <= '9'
    ensures PropertyChar(c) == [c]
  {
  }

  lemma {:induction false} DigitsSpelled(s: string)
    requires forall c :: c in s ==> '0' <= c <= '9'
    ensures Spell(s, PropertyChar) == s
  {
    if s != "" {
      assert s[0] in s && forall c :: c in s[1..] ==> c in s;
      DigitStays(s[0]);
      DigitsSpelled(s[1..]);
    }
  }

  /** The line number is written as it is: escaping leaves digits alone. */
  lemma NumbersStay(n: nat)
    ensures EscapeProperty(Decimal(n)) == Decimal(n)
  {
    PropertyIsPerCharacter(Decimal(n));
    DigitsSpelled(Decimal(n));
  }

  /** Every annotation is one line that reads back to the finding it was written for. */
  lemma AnnotationReadsBack(fold: string -> string, f: Finding)
    ensures var line := AnnotationLine(fold, f);
            && '\n' !in line && '\r' !in line
            && Parse(line) == Some(Parsed(Command(fold, f), PropertiesOf(f), f.body))
  {
    NamesArePlain(fold, f);
    LineReadsBack(Command(fold, f), PropertiesOf(f), f.body);
    LineIsOneLine(Command(fold, f), PropertiesOf(f), f.body);
  }

  lemma PropertiesTell(f: Finding, g: Finding)
    requires PropertiesOf(f) == PropertiesOf(g)
    ensures f.path == g.path && f.title == g.title && (f.line == g.line || (f.line <= 0 && g.line <= 0))
  {
    var p, q := PropertiesOf(f), PropertiesOf(g);
    assert p[|p| - 1] == q[|q| - 1];
    assert p[0] == q[0];
    if f.line > 0 && g.line > 0 {
      DecimalReadsBack(f.line);
      DecimalReadsBack(g.line);
      assert p[|p| - 2] == q[|q| - 2];
    }
  }

  /** No two different findings share a line. */
  lemma LinesAreUnique(fold: string -> string, f: Finding, g: Finding)
    requires AnnotationLine(fold, f) == AnnotationLine(fold, g)
    ensures KindOf(fold, f) == KindOf(fold, g) && f.path == g.path && f.title == g.title && f.body == g.body
    ensures f.line == g.line || (f.line <= 0 && g.line <= 0)
  {
    AnnotationReadsBack(fold, f);
    AnnotationReadsBack(fold, g);
    PropertiesTell(f, g);
  }

  // ---------------------------------------------------------------------------------
  // Which findings are shown
  // ---------------------------------------------------------------------------------

  const CAP := 50

  function Rank(fold: string -> string, f: Finding): nat {
    var severity := fold(f.severity);
    if severity == "error" then 0 else if severity == "warning" then 1 else 2
  }

  function MoreSevere(fold: string -> string): (Finding, Finding) -> bool {
    (a, b) => Rank(fold, a) <= Rank(fold, b)
  }

  lemma MoreSevereIsOrder(fold: string -> string)
    ensures TotalPreorder(MoreSevere(fold))
  {
  }

  function Shown(fold: string -> string, findings: seq<Finding>): seq<Finding> {
    var ranked := Sort(MoreSevere(fold), findings);
    if |ranked| <= CAP then ranked else ranked[..CAP]
  }

  /** The findings shown are given ones, errors first, then warnings, then the rest. */
  lemma ShownBySeverity(fold: string -> string, findings: seq<Finding>)
    ensures forall f :: f in Shown(fold, findings) ==> f in findings
    ensures forall i, j :: 0 <= i < j < |Shown(fold, findings)| ==>
              NoLessSevere(fold, Shown(fold, findings)[i], Shown(fold, findings)[j])
  {
    MoreSevereIsOrder(fold);
    SortSorted(MoreSevere(fold), findings);
    SortMembers(MoreSevere(fold), findings);
    var shown, ranked := Shown(fold, findings), Sort(MoreSevere(fold), findings);
    forall i | 0 <= i < |shown| ensures shown[i] == ranked[i] && ranked[i] in ranked {
    }
    forall i, j | 0 <= i < j < |shown| ensures NoLessSevere(fold, shown[i], shown[j]) {
      assert MoreSevere(fold)(ranked[i], ranked[j]);
    }
  }

  ghost predicate NoLessSevere(fold: string -> string, f: Finding, g: Finding) {
    && (fold(g.severity) == "error" ==> fold(f.severity) == "error")
    && (fold(g.severity) == "warning" ==> fold(f.severity) in {"error", "warning"})
  }

  /** What is left out is no more severe than anything shown, and only because fifty are shown. */
  lemma NothingSevereIsLeftOut(fold: string -> string, findings: seq<Finding>, f: Finding)
    requires f in findings && f !in Shown(fold, findings)
    ensures |Shown(fold, findings)| == 50
    ensures forall g :: g in Shown(fold, findings) ==> NoLessSevere(fold, g, f)
  {
    var le := MoreSevere(fold);
    var ranked := Sort(le, findings);
    MoreSevereIsOrder(fold);
    SortSorted(le, findings);
    SortMembers(le, findings);
    var i :| 0 <= i < |ranked| && ranked[i] == f;
    forall k | 0 <= k < |Shown(fold, findings)| ensures ranked[k] in Shown(fold, findings) {
      assert Shown(fold, findings)[k] == ranked[k];
    }
    forall g | g in Shown(fold, findings) ensures NoLessSevere(fold, g, f) {
      var j :| 0 <= j < |Shown(fold, findings)| && Shown(fold, findings)[j] == g;
      assert le(ranked[j], ranked[i]);
    }
  }

  /** What a finding is announced as. */
  ghost function KindOf(fold: string -> string, f: Finding): string {
    if fold(f.severity) in {"error", "warning"} then fold(f.severity) else "notice"
  }

  ghost function OfKind(fold: string -> string, kind: string): Finding -> bool {
    f => KindOf(fold, f) == kind
  }

  /** Within errors, warnings and the rest, the order given is kept. */
  lemma SeverityKeepsOrder(fold: string -> string, findings: seq<Finding>, kind: string)
    ensures Filter(OfKind(fold, kind), Shown(fold, findings)) <= Filter(OfKind(fold, kind), findings)
  {
    var le, p := MoreSevere(fold), OfKind(fold, kind);
    var ranked, shown := Sort(le, findings), Shown(fold, findings);
    MoreSevereIsOrder(fold);
    SortIsStable(le, findings, p);
    var left := ranked[|shown|..];
    assert ranked == shown + left;
    FilterConcat(p, shown, left);
  }

  /** What an annotation says: whether it is an error, a warning or a notice, the file when there is one, the
      line when it is positive, the title, and the body as its message. */
  lemma AnnotationSays(fold: string -> string, f: Finding)
    ensures Parse(AnnotationLine(fold, f))
         == Some(Parsed(KindOf(fold, f),
                        (if f.path == "" then [] else [("file", f.path)])
                        + ((if f.line <= 0 then [] else [("line", Decimal(f.line))]) + [("title", f.title)]),
                        f.body))
    ensures f.line > 0 ==> ReadDecimal(Decimal(f.line)) == f.line
  {
    AnnotationReadsBack(fold, f);
    if f.line > 0 { DecimalReadsBack(f.line); }
    var line := if f.line <= 0 then [] else [("line", Decimal(f.line))];
    var file := if f.path == "" then [] else [("file", f.path)];
    assert file + (line + [("title", f.title)]) == PropertiesOf(f);
  }

  function LinesOf(fold: string -> string, findings: seq<Finding>): seq<string> {
    seq(|findings|, i requires 0 <= i < |findings| => AnnotationLine(fold, findings[i]))
  }

  /** `",".join` */
  function JoinAll(texts: seq<string>): string {
    if texts == [] then ""
    else if |texts| == 1 then texts[0]
    else texts[0] + ("," + JoinAll(texts[1..]))
  }

  ghost predicate AllRendered(texts: seq<string>, props: seq<Property>) {
    |texts| == |props| && forall i :: 0 <= i < |texts| ==> texts[i] == Rendered(props[i])
  }

  lemma {:induction false} JoinedTexts(texts: seq<string>, props: seq<Property>)
    requires AllRendered(texts, props)
    ensures JoinAll(texts) == Joined(props)
    decreases |texts|
  {
    if |texts| > 1 {
      JoinedTexts(texts[1..], props[1..]);
    }
  }

  /** A finding's properties as they are written, one after the other; the line number is not escaped. */
  method BuildProperties(f: Finding) returns (texts: seq<string>)
    ensures AllRendered(texts, PropertiesOf(f))
  {
    texts := [];
    if f.path != "" {
      texts := texts + ["file" + "=" + EscapeProperty(f.path)];
    }
    if f.line > 0 {
      NumbersStay(f.line);
      texts := texts + ["line" + "=" + Decimal(f.line)];
    }
    texts := texts + ["title" + "=" + EscapeProperty(f.title)];
  }

  method RenderLine(fold: string -> string, f: Finding) returns (line: string)
    ensures line == AnnotationLine(fold, f)
  {
    var texts := BuildProperties(f);
    JoinedTexts(texts, PropertiesOf(f));
    line := "::" + ((Command(fold, f) + (" " + JoinAll(texts))) + ("::" + EscapeData(f.body)));
  }

  method RenderLines(fold: string -> string, shown: seq<Finding>) returns (lines: seq<string>)
    ensures lines == LinesOf(fold, shown)
  {
    lines := [];
    for i := 0 to |shown|
      invariant |lines| == i && forall k :: 0 <= k < i ==> lines[k] == AnnotationLine(fold, shown[k])
    {
      var line := RenderLine(fold, shown[i]);
      lines := lines + [line];
    }
  }

  /** The line of each shown finding in turn. */
  method GitHubAnnotations(fold: string -> string, findings: seq<Finding>) returns (lines: seq<string>)
    ensures lines == LinesOf(fold, Shown(fold, findings)) && |lines| <= CAP
  {
    lines := RenderLines(fold, Shown(fold, findings));
  }
}
