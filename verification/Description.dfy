/** The description a pull request body carries: composing it around a generated text, taking a
    body apart again, and the decision whether it may be written.  Taking apart loses no human
    text, and undoes composing. */
module Description {
  import opened Prelude
  import opened Markers

  // ---------------------------------------------------------------------------------
  // Taking a body apart
  // ---------------------------------------------------------------------------------

  /** A generated block: its marker fields and the text between its markers. */
  datatype Block = Block(version: string, head: string, at: string, body: string)

  /** A body cut at its markers: human text before, between and after the sections, the generated
      block, and the stored original.  What stands around an absent section is empty. */
  datatype Layout = Layout(
    lead: string, block: Option<Block>, gap: string, hasSection: bool, stored: string, tail: string)

  /** The human text before the generated block, the block, and where it ends. */
  datatype Front = Front(lead: string, block: Option<Block>, end: nat)

  function CutBlock(text: string): (r: Front)
    ensures r.end <= |text|
    ensures r.block.None? ==> r.lead == "" && r.end == 0
  {
    ClosesAreProper();
    SearchFinds(GeneratedOpenAt, text, 0);
    match Search(GeneratedOpenAt, text, 0)
    case None => Front("", None, 0)
    case Some(head) =>
      SearchFinds(GeneratedCloseAt, text, head.end);
      match Search(GeneratedCloseAt, text, head.end)
      case None => Front("", None, 0)
      case Some(foot) =>
        Front(text[..head.start],
              Some(Block(head.groups.value.version, head.groups.value.head, head.groups.value.at,
                         text[head.end..foot.start])), foot.end)
  }

  /** The human text around the stored original, from `pos` on. */
  datatype Back = Back(gap: string, hasSection: bool, stored: string, tail: string)

  function CutOriginal(text: string, pos: nat): (r: Back)
    requires pos <= |text|
    ensures !r.hasSection ==> r.gap == "" && r.stored == ""
  {
    ClosesAreProper();
    SearchFinds(OriginalOpenAt, text, pos);
    match Search(OriginalOpenAt, text, pos)
    case None => Back("", false, "", text[pos..])
    case Some(origin) =>
      match LastMatch(OriginalCloseAt, text, origin.end)
      case None => Back("", false, "", text[pos..])
      case Some(finish) => Back(text[pos..origin.start], true, text[origin.end..finish.start], text[finish.end..])
  }

  function Cut(text: string): Layout {
    var front := CutBlock(text);
    var back := CutOriginal(text, front.end);
    Layout(front.lead, front.block, back.gap, back.hasSection, back.stored, back.tail)
  }

  datatype Parts = Parts(
    original: string, generated: Option<string>, head: Option<string>, at: Option<string>,
    version: Option<string>, edited: bool)

  /** `"\n\n".join` */
  function Join(pieces: seq<string>): string {
    if pieces == [] then ""
    else if |pieces| == 1 then pieces[0]
    else pieces[0] + "\n\n" + Join(pieces[1..])
  }

  /** The non-empty ones, in order. */
  function NonEmpties(pieces: seq<string>): seq<string> {
    if pieces == [] then []
    else if pieces[0] == "" then NonEmpties(pieces[1..])
    else [pieces[0]] + NonEmpties(pieces[1..])
  }

  /** What a human wrote outside the generated block and the markers, in document order: stripped, save
      for the stored original, which is taken as it is or, when blank, not at all. */
  function Fragments(cut: Layout): (r: seq<string>)
    ensures |r| == 4
  {
    [Strip(cut.lead), Strip(cut.gap), if Strip(cut.stored) == "" then "" else cut.stored, Strip(cut.tail)]
  }

  /** The human text of a cut body: the stored original alone when nothing was written around the
      sections, else every non-blank piece in document order. */
  function HumanText(cut: Layout): (r: string) {
    var lead, gap, tail := Strip(cut.lead), Strip(cut.gap), Strip(cut.tail);
    var original :=
      if lead == "" && gap == "" && tail == "" then cut.stored
      else Join(NonEmpties(Fragments(cut)));
    if Strip(original) == "" then "" else original
  }

  function Split(text: string): Parts {
    var cut := Cut(text);
    if cut.block.None? && !cut.hasSection then Parts(text, None, None, None, None, false)
    else
      var edited := Strip(cut.lead) != "" || Strip(cut.gap) != "" || Strip(cut.tail) != "";
      match cut.block
      case None => Parts(HumanText(cut), None, None, None, None, edited)
      case Some(b) => Parts(HumanText(cut), Some(b.body), Some(b.head), Some(b.at), Some(b.version), edited)
  }

  // ---------------------------------------------------------------------------------
  // No human text is lost
  // ---------------------------------------------------------------------------------

  lemma {:induction false} JoinSquash(pieces: seq<string>)
    ensures Squash(Join(pieces)) == if pieces == [] then "" else Squash(pieces[0]) + Squash(Join(pieces[1..]))
  {
    if |pieces| == 1 {
      assert pieces[1..] == [];
      assert Squash(pieces[0]) + "" == Squash(pieces[0]);
    } else if |pieces| > 1 {
      SquashConcat(pieces[0] + "\n\n", Join(pieces[1..]));
      SquashConcat(pieces[0], "\n\n");
      assert Squash("\n\n") == "" by {
        assert "\n\n"[1..] == "\n" && "\n"[1..] == "";
      }
      assert Squash(pieces[0]) + "" == Squash(pieces[0]);
    }
  }

  ghost function SquashAll(pieces: seq<string>): string {
    if pieces == [] then "" else Squash(pieces[0]) + SquashAll(pieces[1..])
  }

  lemma {:induction false} NonEmptiesSquash(pieces: seq<string>)
    ensures Squash(Join(NonEmpties(pieces))) == SquashAll(pieces)
  {
    if pieces != [] {
      NonEmptiesSquash(pieces[1..]);
      if pieces[0] == "" {
        assert "" + SquashAll(pieces[1..]) == SquashAll(pieces[1..]);
      } else {
        JoinSquash(NonEmpties(pieces));
        assert NonEmpties(pieces)[1..] == NonEmpties(pieces[1..]);
      }
    }
  }

  lemma SquashFour(a: string, b: string, c: string, d: string)
    ensures SquashAll([a, b, c, d]) == Squash(a) + Squash(b) + Squash(c) + Squash(d)
  {
    SquashFirst([a, b, c, d], [b, c, d]);
    SquashFirst([b, c, d], [c, d]);
    SquashFirst([c, d], [d]);
    SquashFirst([d], []);
    LeftToRight(Squash(a), Squash(b), Squash(c), Squash(d));
  }

  lemma SquashFirst(pieces: seq<string>, rest: seq<string>)
    requires pieces != [] && pieces[1..] == rest
    ensures SquashAll(pieces) == Squash(pieces[0]) + SquashAll(rest)
  {
  }

  lemma LeftToRight(a: string, b: string, c: string, d: string)
    ensures a + (b + (c + (d + ""))) == a + b + c + d
  {
  }

  lemma StripBlank(s: string)
    ensures Squash(if Strip(s) == "" then "" else s) == Squash(s)
  {
    StripKeepsText(s);
  }

  lemma FragmentsSquash(cut: Layout)
    ensures Squash(Join(NonEmpties(Fragments(cut))))
         == Squash(cut.lead) + Squash(cut.gap) + Squash(cut.stored) + Squash(cut.tail)
  {
    NonEmptiesSquash(Fragments(cut));
    SquashFour(Strip(cut.lead), Strip(cut.gap), if Strip(cut.stored) == "" then "" else cut.stored, Strip(cut.tail));
    StripKeepsText(cut.lead);
    StripKeepsText(cut.gap);
    StripKeepsText(cut.tail);
    StripBlank(cut.stored);
  }

  /** The human text keeps every visible character written outside the generated block and the
      markers, in document order. */
  lemma HumanTextKeepsAll(cut: Layout)
    ensures Squash(HumanText(cut)) == Squash(cut.lead) + Squash(cut.gap) + Squash(cut.stored) + Squash(cut.tail)
  {
    StripKeepsText(cut.lead);
    StripKeepsText(cut.gap);
    StripKeepsText(cut.tail);
    StripBlank(cut.stored);
    FragmentsSquash(cut);
    StripBlank(Join(NonEmpties(Fragments(cut))));
  }

  // ---------------------------------------------------------------------------------
  // ... and stands verbatim, in document order
  // ---------------------------------------------------------------------------------

  /** The parts stand in `whole`, character by character, one behind the other. */
  ghost predicate StandInOrder(parts: seq<string>, whole: string)
    decreases |parts|
  {
    parts == [] || exists i: nat :: StandsFirst(parts, whole, i)
  }

  ghost predicate StandsFirst(parts: seq<string>, whole: string, i: nat)
    requires parts != []
    decreases |parts|, 0
  {
    At(whole, i, parts[0]) && StandInOrder(parts[1..], whole[i + |parts[0]|..])
  }

  lemma InOrderShift(a: string, parts: seq<string>, b: string)
    requires StandInOrder(parts, b)
    ensures StandInOrder(parts, a + b)
  {
    if parts != [] {
      var i: nat :| StandsFirst(parts, b, i);
      AtShift(a, b, i, parts[0]);
      assert (a + b)[|a| + i + |parts[0]|..] == b[i + |parts[0]|..];
      assert StandsFirst(parts, a + b, |a| + i);
    }
  }

  lemma {:induction false} JoinInOrder(pieces: seq<string>)
    ensures StandInOrder(pieces, Join(pieces))
  {
    if pieces != [] {
      var first, rest := pieces[0], pieces[1..];
      JoinInOrder(rest);
      var behind := if rest == [] then "" else "\n\n" + Join(rest);
      if rest != [] {
        InOrderShift("\n\n", rest, Join(rest));
      }
      assert Join(pieces) == first + behind;
      assert At(first + behind, 0, first) && (first + behind)[|first|..] == behind;
      assert StandsFirst(pieces, Join(pieces), 0);
    }
  }

  lemma {:induction false} NonEmptiesInOrder(pieces: seq<string>, whole: string)
    requires StandInOrder(NonEmpties(pieces), whole)
    ensures StandInOrder(pieces, whole)
    decreases |pieces|
  {
    if pieces != [] {
      if pieces[0] == "" {
        NonEmptiesInOrder(pieces[1..], whole);
        assert whole[0..] == whole;
        assert StandsFirst(pieces, whole, 0);
      } else {
        var i: nat :| StandsFirst(NonEmpties(pieces), whole, i);
        assert NonEmpties(pieces)[1..] == NonEmpties(pieces[1..]);
        NonEmptiesInOrder(pieces[1..], whole[i + |pieces[0]|..]);
        assert StandsFirst(pieces, whole, i);
      }
    }
  }

  lemma {:induction false} AllEmpty(pieces: seq<string>)
    requires SquashAll(pieces) == "" && forall p :: p in pieces && Squash(p) == "" ==> p == ""
    ensures NonEmpties(pieces) == []
  {
    if pieces != [] {
      assert pieces[0] in pieces;
      AllEmpty(pieces[1..]);
    }
  }

  lemma {:induction false} StripStands(s: string) returns (i: nat)
    ensures At(s, i, Strip(s))
    decreases |s|
  {
    if s != "" && IsSpace(s[0]) {
      i := StripStands(s[1..]);
      AtShift(s[..1], s[1..], i, Strip(s));
      assert s == s[..1] + s[1..];
      i := i + 1;
    } else if s != "" && IsSpace(s[|s| - 1]) {
      var front := s[..|s| - 1];
      i := StripStands(front);
      assert forall k :: 0 <= k < |front| ==> s[k] == front[k];
    } else {
      i := 0;
    }
  }

  lemma BlankFragment(cut: Layout, p: string)
    requires p in Fragments(cut) && Squash(p) == ""
    ensures p == ""
  {
    StripKeepsText(cut.lead);
    StripKeepsText(cut.gap);
    StripKeepsText(cut.stored);
    StripKeepsText(cut.tail);
  }

  lemma HumanTextInOrder(cut: Layout)
    ensures StandInOrder(Fragments(cut), HumanText(cut))
  {
    var fragments := Fragments(cut);
    var joined := Join(NonEmpties(fragments));
    StripKeepsText(joined);
    if Strip(joined) == "" {
      NonEmptiesSquash(fragments);
      forall p | p in fragments && Squash(p) == "" ensures p == "" {
        BlankFragment(cut, p);
      }
      AllEmpty(fragments);
    } else {
      JoinInOrder(NonEmpties(fragments));
      JoinedOrAlone(cut);
    }
    NonEmptiesInOrder(fragments, HumanText(cut));
  }

  /** The human text is the joined fragments, also when the stored original stands alone. */
  lemma JoinedOrAlone(cut: Layout)
    requires Strip(Join(NonEmpties(Fragments(cut)))) != ""
    ensures HumanText(cut) == Join(NonEmpties(Fragments(cut)))
  {
    var f := Fragments(cut);
    if f[0] == "" && f[1] == "" && f[3] == "" {
      OneFragment(f);
    }
  }

  lemma OneFragment(f: seq<string>)
    requires |f| == 4 && f[0] == "" && f[1] == "" && f[3] == ""
    ensures Join(NonEmpties(f)) == f[2]
  {
    var third := f[1..][1..];
    assert third == [f[2], f[3]] && third[1..] == [f[3]] && third[1..][1..] == [];
    assert NonEmpties(third[1..]) == [];
    assert NonEmpties(f) == NonEmpties(f[1..]) == NonEmpties(third);
    assert f[2] == "" ==> NonEmpties(third) == [];
    assert f[2] != "" ==> NonEmpties(third) == [f[2]] + [];
  }

  /** No human text is lost: what was written outside the generated block and the markers stands in the
      split original verbatim and in document order, and nothing else visible does. */
  lemma NoHumanTextIsLost(text: string)
    ensures var cut, original := Cut(text), Split(text).original;
            && StandInOrder(Fragments(cut), original)
            && Squash(original) == Squash(cut.lead) + Squash(cut.gap) + Squash(cut.stored) + Squash(cut.tail)
  {
    var cut := Cut(text);
    if cut.block.None? && !cut.hasSection {
      assert cut == Layout("", None, "", false, "", text) by { assert text[0..] == text; }
      assert Strip("") == "";
      var i := StripStands(text);
      TailStands(text, i);
      assert "" + Squash(text) == Squash(text);
    } else {
      HumanTextInOrder(cut);
      HumanTextKeepsAll(cut);
    }
  }

  lemma TailStands(text: string, i: nat)
    requires At(text, i, Strip(text))
    ensures StandInOrder(["", "", "", Strip(text)], text)
  {
    var parts := ["", "", "", Strip(text)];
    assert parts[1..] == ["", "", Strip(text)] && parts[1..][1..] == ["", Strip(text)];
    assert parts[1..][1..][1..] == [Strip(text)] && [Strip(text)][1..] == [];
    assert text[0..] == text;
    assert StandsFirst([Strip(text)], text, i);
    assert StandsFirst(["", Strip(text)], text, 0);
    assert StandsFirst(["", "", Strip(text)], text, 0);
    assert StandsFirst(parts, text, 0);
  }

  // ---------------------------------------------------------------------------------
  // ... and nothing but one blank line between neighbours
  // ---------------------------------------------------------------------------------

  ghost predicate AllSpace(s: string) {
    forall k :: 0 <= k < |s| ==> IsSpace(s[k])
  }

  /** Two texts with one blank line between them; an empty one leaves the other alone. */
  ghost function Spaced(a: string, b: string): string {
    if a == "" then b else if b == "" then a else a + "\n\n" + b
  }

  ghost function SpacedAll(pieces: seq<string>): string {
    if pieces == [] then "" else Spaced(pieces[0], SpacedAll(pieces[1..]))
  }

  /** `core` is `s` without the white space around it. */
  ghost predicate Stripped(s: string, core: string) {
    && (exists i: nat :: StrippedAt(s, core, i))
    && (core != "" ==> !IsSpace(core[0]) && !IsSpace(core[|core| - 1]))
  }

  ghost predicate StrippedAt(s: string, core: string, i: nat) {
    && At(s, i, core)
    && (forall k :: 0 <= k < i ==> IsSpace(s[k])) && (forall k :: i + |core| <= k < |s| ==> IsSpace(s[k]))
  }

  lemma {:induction false} StripIs(s: string)
    ensures Stripped(s, Strip(s))
    decreases |s|
  {
    var core := Strip(s);
    if s != "" && IsSpace(s[0]) {
      StripIs(s[1..]);
      var i: nat :| StrippedAt(s[1..], core, i);
      StrippedBehind(s, core, i);
    } else if s != "" && IsSpace(s[|s| - 1]) {
      StripIs(s[..|s| - 1]);
      var i: nat :| StrippedAt(s[..|s| - 1], core, i);
      StrippedBefore(s, core, i);
    } else {
      assert StrippedAt(s, core, 0);
    }
  }

  lemma StrippedBehind(s: string, core: string, i: nat)
    requires s != "" && IsSpace(s[0]) && StrippedAt(s[1..], core, i)
    ensures StrippedAt(s, core, i + 1)
  {
    assert s == s[..1] + s[1..];
    AtShift(s[..1], s[1..], i, core);
    forall k | 0 <= k < i + 1 || i + 1 + |core| <= k < |s| ensures IsSpace(s[k]) {
      if k > 0 { assert s[k] == s[1..][k - 1]; }
    }
  }

  lemma StrippedBefore(s: string, core: string, i: nat)
    requires s != "" && IsSpace(s[|s| - 1]) && StrippedAt(s[..|s| - 1], core, i)
    ensures StrippedAt(s, core, i)
  {
    var front := s[..|s| - 1];
    forall k | 0 <= k < |front| ensures s[k] == front[k] {
    }
  }

  lemma {:induction false} JoinIsSpaced(pieces: seq<string>)
    ensures Join(NonEmpties(pieces)) == SpacedAll(pieces)
    ensures NonEmpties(pieces) == [] <==> SpacedAll(pieces) == ""
  {
    if pieces != [] {
      JoinIsSpaced(pieces[1..]);
      if pieces[0] != "" {
        assert NonEmpties(pieces)[1..] == NonEmpties(pieces[1..]);
      }
    }
  }

  lemma SpacedFour(a: string, b: string, c: string, d: string)
    ensures SpacedAll([a, b, c, d]) == Spaced(a, Spaced(b, Spaced(c, d)))
  {
    assert [a, b, c, d][1..] == [b, c, d] && [b, c, d][1..] == [c, d] && [c, d][1..] == [d] && [d][1..] == [];
    assert SpacedAll([d]) == d;
    assert SpacedAll([c, d]) == Spaced(c, d);
    assert SpacedAll([b, c, d]) == Spaced(b, Spaced(c, d));
  }

  /** A body taken apart: the original is what humans wrote around the sections, stripped, and the stored
      original as it is unless blank, in document order with one blank line between neighbours and nothing
      else; it is edited exactly when something visible stands around the sections. */
  lemma SplitIs(text: string, lead: string, gap: string, tail: string)
    requires var cut := Cut(text);
             && (cut.block.Some? || cut.hasSection)
             && Stripped(cut.lead, lead) && Stripped(cut.gap, gap) && Stripped(cut.tail, tail)
    ensures var cut, parts := Cut(text), Split(text);
            var stored := if AllSpace(cut.stored) then "" else cut.stored;
            && parts.original == Spaced(lead, Spaced(gap, Spaced(stored, tail)))
            && (parts.edited <==> lead != "" || gap != "" || tail != "")
            && match cut.block
               case None => parts.generated == None && parts.head == None && parts.at == None && parts.version == None
               case Some(b) => parts.generated == Some(b.body) && parts.head == Some(b.head)
                               && parts.at == Some(b.at) && parts.version == Some(b.version)
  {
    var cut := Cut(text);
    StrippedIsStrip(cut.lead, lead);
    StrippedIsStrip(cut.gap, gap);
    StrippedIsStrip(cut.tail, tail);
    BlankIff(cut.stored);
    HumanTextSpaced(cut);
  }

  lemma BlankIff(s: string)
    ensures Strip(s) == "" <==> AllSpace(s)
  {
    StripIs(s);
    StripKeepsText(s);
    var i: nat :| StrippedAt(s, Strip(s), i);
    if AllSpace(s) { SpaceSquash(s); }
  }

  lemma HumanTextSpaced(cut: Layout)
    ensures HumanText(cut)
         == Spaced(Strip(cut.lead),
                   Spaced(Strip(cut.gap), Spaced(if Strip(cut.stored) == "" then "" else cut.stored, Strip(cut.tail))))
  {
    var f := Fragments(cut);
    var joined := Join(NonEmpties(f));
    JoinIsSpaced(f);
    SpacedFour(f[0], f[1], f[2], f[3]);
    StripKeepsText(joined);
    if Strip(joined) == "" {
      NonEmptiesSquash(f);
      forall p | p in f && Squash(p) == "" ensures p == "" {
        BlankFragment(cut, p);
      }
      AllEmpty(f);
    } else {
      JoinedOrAlone(cut);
    }
  }

  /** A text has one stripped core. */
  lemma StrippedIsStrip(s: string, core: string)
    requires Stripped(s, core)
    ensures Strip(s) == core
  {
    StripIs(s);
    var t := Strip(s);
    var i: nat :| StrippedAt(s, core, i);
    var j: nat :| StrippedAt(s, t, j);
    CoreSquash(s, core, i);
    CoreSquash(s, t, j);
    if core != "" && t != "" {
      CoresMeet(s, core, t, i, j);
    } else {
      VisibleSquash(core);
      VisibleSquash(t);
    }
  }

  lemma VisibleSquash(s: string)
    requires s != "" ==> !IsSpace(s[0])
    ensures Squash(s) == "" ==> s == ""
  {
  }

  lemma {:induction false} SpaceSquash(s: string)
    requires AllSpace(s)
    ensures Squash(s) == ""
  {
    if s != "" { SpaceSquash(s[1..]); }
  }

  lemma CoreSquash(s: string, core: string, i: nat)
    requires StrippedAt(s, core, i)
    ensures Squash(s) == Squash(core)
  {
    var before, after := s[..i], s[i + |core|..];
    assert s == before + (core + after) by {
      assert s[i..i + |core|] == core;
    }
    SquashConcat(before, core + after);
    SquashConcat(core, after);
    SpaceSquash(before);
    SpaceSquash(after);
    assert "" + (Squash(core) + "") == Squash(core);
  }

  lemma CoresMeet(s: string, a: string, b: string, i: nat, j: nat)
    requires StrippedAt(s, a, i) && StrippedAt(s, b, j) && a != "" && b != ""
    requires !IsSpace(a[0]) && !IsSpace(a[|a| - 1]) && !IsSpace(b[0]) && !IsSpace(b[|b| - 1])
    ensures a == b
  {
    assert s[i] == a[0] && s[j] == b[0] && s[i + |a| - 1] == a[|a| - 1] && s[j + |b| - 1] == b[|b| - 1];
    assert i == j && |a| == |b|;
    forall k | 0 <= k < |a| ensures a[k] == b[k] {
      assert s[i + k] == a[k] && s[i + k] == b[k];
    }
  }

  lemma AtShift(a: string, b: string, i: nat, lit: string)
    requires At(b, i, lit)
    ensures At(a + b, |a| + i, lit)
  {
    forall k | |a| + i <= k < |a| + i + |lit| ensures (a + b)[k] == lit[k - |a| - i] {
      assert b[k - |a|] == lit[k - |a| - i];
    }
  }

  // ---------------------------------------------------------------------------------
  // What lies between the pieces
  // ---------------------------------------------------------------------------------

  /** A literal in white space. */
  ghost predicate Padded(m: string, lit: string) {
    exists i: nat :: PaddedAt(m, lit, i)
  }

  ghost predicate PaddedAt(m: string, lit: string, i: nat) {
    At(m, i, lit) && AllSpace(m[..i]) && AllSpace(m[i + |lit|..])
  }

  ghost predicate PaddedTwice(m: string, first: string, second: string) {
    exists k: nat :: k <= |m| && Padded(m[..k], first) && Padded(m[k..], second)
  }

  /** Marker text: the marker comment, possibly beside the details markup, and white space. */
  ghost predicate CloseText(m: string) {
    Padded(m, GENERATED_CLOSE)
  }

  ghost predicate SectionOpenText(m: string) {
    Padded(m, ORIGINAL_OPEN) || PaddedTwice(m, DETAILS_OPEN, ORIGINAL_OPEN)
  }

  ghost predicate SectionCloseText(m: string) {
    Padded(m, ORIGINAL_CLOSE) || PaddedTwice(m, ORIGINAL_CLOSE, DETAILS_CLOSE)
  }

  /** A slice known to be white space, a literal, and white space again. */
  lemma PaddedSlice(text: string, i: nat, j: nat, lit: string, e: nat)
    requires i <= j <= e <= |text| && j + |lit| <= e && At(text, j, lit)
    requires forall k :: i <= k < j || j + |lit| <= k < e ==> IsSpace(text[k])
    ensures Padded(text[i..e], lit)
  {
    var m := text[i..e];
    assert PaddedAt(m, lit, j - i);
  }

  lemma PaddedSlices(text: string, i: nat, k: nat, e: nat, first: string, second: string)
    requires i <= k <= e <= |text| && Padded(text[i..k], first) && Padded(text[k..e], second)
    ensures PaddedTwice(text[i..e], first, second)
  {
    var m := text[i..e];
    assert m[..k - i] == text[i..k] && m[k - i..] == text[k..e];
  }

  lemma NewlineIsSpace(text: string, i: nat)
    ensures NewlineEnd(text, i).Some? ==> forall k :: i <= k < NewlineEnd(text, i).value ==> IsSpace(text[k])
  {
  }

  lemma {:induction false} NewlinesAreSpace(text: string, i: nat)
    requires i <= |text|
    ensures forall k :: i <= k < NewlinesEnd(text, i) ==> IsSpace(text[k])
    decreases |text| - i
  {
    match NewlineEnd(text, i)
    case None =>
    case Some(e) =>
      NewlineIsSpace(text, i);
      NewlinesAreSpace(text, e);
  }

  lemma GeneratedCloseText(text: string, i: nat)
    requires GeneratedCloseAt(text, i).Some?
    ensures CloseText(text[i..GeneratedCloseAt(text, i).value.end])
  {
    NewlineIsSpace(text, i);
    var e := NewlineEnd(text, i).value;
    PaddedSlice(text, i, e, GENERATED_CLOSE, e + |GENERATED_CLOSE|);
  }

  lemma OriginalOpenText(text: string, i: nat)
    requires OriginalOpenAt(text, i).Some?
    ensures SectionOpenText(text[i..OriginalOpenAt(text, i).value.end])
  {
    var b := SectionOpen(text, i);
    var c := b + |ORIGINAL_OPEN|;
    var e := NewlineEnd(text, c).value;
    NewlineIsSpace(text, c);
    PaddedSlice(text, b, b, ORIGINAL_OPEN, e);
    if b != i {
      NewlinesAreSpace(text, RunEnd(text, i + |DETAILS_OPEN|, Blank));
      PaddedSlice(text, i, i, DETAILS_OPEN, b);
      PaddedSlices(text, i, b, e, DETAILS_OPEN, ORIGINAL_OPEN);
    }
  }

  lemma OriginalCloseText(text: string, i: nat)
    requires OriginalCloseAt(text, i).Some?
    ensures SectionCloseText(text[i..OriginalCloseAt(text, i).value.end])
  {
    NewlineIsSpace(text, i);
    var b := NewlineEnd(text, i).value;
    var e := b + |ORIGINAL_CLOSE|;
    var j := RunEnd(text, e, IsSpace);
    PaddedSlice(text, i, b, ORIGINAL_CLOSE, e);
    if SectionEnd(text, e) != e {
      PaddedSlice(text, e, j, DETAILS_CLOSE, j + |DETAILS_CLOSE|);
      PaddedSlices(text, i, e, j + |DETAILS_CLOSE|, ORIGINAL_CLOSE, DETAILS_CLOSE);
    }
  }

  lemma {:induction false} LastMatchMatches(m: Matcher, text: string, pos: nat)
    requires Proper(m)
    ensures LastMatch(m, text, pos).Some? ==>
              m(text, LastMatch(m, text, pos).value.start) == LastMatch(m, text, pos)
    decreases |text| - pos
  {
    SearchFinds(m, text, pos);
    match Search(m, text, pos)
    case None =>
    case Some(found) => LastMatchMatches(m, text, found.end);
  }

  lemma FourSlices(text: string, a: nat, b: nat, c: nat, d: nat)
    requires a <= b <= c <= d <= |text|
    ensures text[..d] == text[..a] + (text[a..b] + (text[b..c] + text[c..d]))
  {
  }

  lemma FiveSlices(text: string, p: nat, a: nat, b: nat, c: nat, d: nat)
    requires p <= a <= b <= c <= d <= |text|
    ensures text[p..] == text[p..a] + (text[a..b] + (text[b..c] + (text[c..d] + text[d..])))
  {
  }

  lemma OpenSlice(text: string, i: nat)
    requires GeneratedOpenAt(text, i).Some?
    ensures GENERATED_OPEN_PREFIX <= text[i..GeneratedOpenAt(text, i).value.end]
  {
    var m := text[i..GeneratedOpenAt(text, i).value.end];
    var n := |GENERATED_OPEN_PREFIX|;
    assert n <= |m| && At(text, i, GENERATED_OPEN_PREFIX);
    forall k | 0 <= k < n ensures m[k] == GENERATED_OPEN_PREFIX[k] {
      assert text[i + k] == GENERATED_OPEN_PREFIX[i + k - i];
    }
  }

  /** The front of a body, cut: the lead, the open marker, the generated text and its close marker. */
  lemma FrontCovers(text: string) returns (opening: string, closing: string)
    ensures var f := CutBlock(text);
            match f.block
            case None => opening == "" && closing == "" && f.end == 0
            case Some(b) =>
              && text[..f.end] == f.lead + (opening + (b.body + closing))
              && GENERATED_OPEN_PREFIX <= opening && CloseText(closing)
  {
    opening, closing := "", "";
    if CutBlock(text).block.Some? {
      ClosesAreProper();
      SearchFinds(GeneratedOpenAt, text, 0);
      var head := Search(GeneratedOpenAt, text, 0).value;
      SearchFinds(GeneratedCloseAt, text, head.end);
      var foot := Search(GeneratedCloseAt, text, head.end).value;
      opening, closing := text[head.start..head.end], text[foot.start..foot.end];
      GeneratedCloseText(text, foot.start);
      OpenSlice(text, head.start);
      FourSlices(text, head.start, head.end, foot.start, foot.end);
    }
  }

  /** The back of a body, cut: the gap, the section's open markup, the stored original, its close
      markup and the rest. */
  lemma BackCovers(text: string, pos: nat) returns (opening: string, closing: string)
    requires pos <= |text|
    ensures var b := CutOriginal(text, pos);
            && text[pos..] == b.gap + (opening + (b.stored + (closing + b.tail)))
            && (if b.hasSection then SectionOpenText(opening) && SectionCloseText(closing)
                else opening == "" && closing == "")
  {
    opening, closing := "", "";
    if CutOriginal(text, pos).hasSection {
      ClosesAreProper();
      SearchFinds(OriginalOpenAt, text, pos);
      var origin := Search(OriginalOpenAt, text, pos).value;
      LastMatchMatches(OriginalCloseAt, text, origin.end);
      var finish := LastMatch(OriginalCloseAt, text, origin.end).value;
      opening, closing := text[origin.start..origin.end], text[finish.start..finish.end];
      OriginalOpenText(text, origin.start);
      OriginalCloseText(text, finish.start);
      FiveSlices(text, pos, origin.start, origin.end, finish.start, finish.end);
    }
  }

  /** Nothing else is lost: a body is its human pieces, its generated text and marker text, in order. */
  lemma CutCovers(text: string) returns (m1: string, m2: string, m3: string, m4: string)
    ensures var cut := Cut(text);
            var body := if cut.block.Some? then cut.block.value.body else "";
            text == cut.lead + (m1 + (body + m2)) + (cut.gap + (m3 + (cut.stored + (m4 + cut.tail))))
    ensures var cut := Cut(text);
            && (if cut.block.Some? then GENERATED_OPEN_PREFIX <= m1 && CloseText(m2) else m1 == "" && m2 == "")
            && (if cut.hasSection then SectionOpenText(m3) && SectionCloseText(m4) else m3 == "" && m4 == "")
  {
    m1, m2 := FrontCovers(text);
    var pos := CutBlock(text).end;
    m3, m4 := BackCovers(text, pos);
    assert text == text[..pos] + text[pos..];
  }

  // ---------------------------------------------------------------------------------
  // Whether the body may be written
  // ---------------------------------------------------------------------------------

  datatype WriteReason = Off | ForcedKeepingHuman | ForcedNoHuman | HumanWritten | OnlyGenerated | NoDescription

  datatype ModeError = BadMode(mode: string)

  function DecideWrite(current: string, mode: string): Result<(bool, WriteReason), ModeError> {
    if mode != "off" && mode != "empty" && mode != "force" then Err(BadMode(mode))
    else if mode == "off" then Ok((false, Off))
    else
      var parts := Split(current);
      var human := Strip(parts.original) != "";
      if mode == "force" then Ok((true, if human then ForcedKeepingHuman else ForcedNoHuman))
      else if human then Ok((false, HumanWritten))
      else Ok((true, if parts.generated.Some? then OnlyGenerated else NoDescription))
  }

  /** With `empty`, a write is allowed exactly when nothing visible stands outside the generated block
      and the markers. */
  lemma EmptyWritesIffNoHumanText(current: string)
    ensures var cut := Cut(current);
            && DecideWrite(current, "empty").Ok?
            && (DecideWrite(current, "empty").value.0
                <==> Squash(cut.lead) == "" && Squash(cut.gap) == "" && Squash(cut.stored) == ""
                     && Squash(cut.tail) == "")
  {
    StripKeepsText(Split(current).original);
    NoHumanTextIsLost(current);
  }

  /** The decision: an unknown mode is refused; `off` never writes, `force` always does, and `empty` only when
      nothing visible stands outside the generated block and the markers; the reason says which it was. */
  lemma DecisionIs(current: string, mode: string)
    ensures var cut, decision := Cut(current), DecideWrite(current, mode);
            var human :=
              !(AllSpace(cut.lead) && AllSpace(cut.gap) && AllSpace(cut.stored) && AllSpace(cut.tail));
            && (decision.Err? <==> mode !in {"off", "empty", "force"})
            && (mode == "off" ==> decision == Ok((false, Off)))
            && (mode == "force" && human ==> decision == Ok((true, ForcedKeepingHuman)))
            && (mode == "force" && !human ==> decision == Ok((true, ForcedNoHuman)))
            && (mode == "empty" && human ==> decision == Ok((false, HumanWritten)))
            && (mode == "empty" && !human && cut.block.Some? ==> decision == Ok((true, OnlyGenerated)))
            && (mode == "empty" && !human && cut.block.None? ==> decision == Ok((true, NoDescription)))
  {
    var cut := Cut(current);
    StripKeepsText(Split(current).original);
    NoHumanTextIsLost(current);
    BlankIff(cut.lead);
    BlankIff(cut.gap);
    BlankIff(cut.stored);
    BlankIff(cut.tail);
    StripKeepsText(cut.lead);
    StripKeepsText(cut.gap);
    StripKeepsText(cut.stored);
    StripKeepsText(cut.tail);
  }
}
