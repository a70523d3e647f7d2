/** What cleaning a generated text removes: every marker that does not start inside one removed before it, up to its
    own end, and nothing else but the white space around what is left. */
module MarkerRemoval {
  import opened Prelude
  import opened Markers
  import opened Description
  import opened DescriptionRoundTrip

  // ---------------------------------------------------------------------------------
  // What a marker is
  // ---------------------------------------------------------------------------------

  /** `text[i..e]` is a longest run of white space. */
  ghost predicate SpaceUpTo(text: string, i: nat, e: nat) {
    && i <= e <= |text| && (forall k :: i <= k < e ==> IsSpace(text[k]))
    && (e < |text| ==> !IsSpace(text[e]))
  }

  ghost predicate CommentOpens(text: string, i: nat, a: nat) {
    At(text, i, "<!--") && SpaceUpTo(text, i + 4, a)
  }

  ghost predicate MayBeSlash(text: string, i: nat, b: nat) {
    if i < |text| && text[i] == '/' then SpaceUpTo(text, i + 1, b) else b == i
  }

  ghost predicate KeyStands(text: string, i: nat, c: nat) {
    At(text, i, "prxref:") && c == i + 7
  }

  /** One of the two section names, as a whole word. */
  ghost predicate NameStands(text: string, i: nat, d: nat) {
    && ((At(text, i, "generated") && d == i + 9) || (At(text, i, "original") && d == i + 8))
    && (d < |text| ==> !IsWord(text[d]))
  }

  /** The first end of a comment from `i` on ends at `e`. */
  ghost predicate CommentEnds(text: string, i: nat, e: nat) {
    i + 3 <= e && At(text, e - 3, "-->") && forall k :: i <= k < e - 3 ==> !At(text, k, "-->")
  }

  type Shape = (string, nat, nat) -> bool

  /** What stands from `i` to `e` has these five shapes, one behind the other. */
  ghost predicate OneBehindTheOther(m: Shape, n: Shape, o: Shape, p: Shape, q: Shape, text: string, i: nat, e: nat) {
    exists a, b, c, d :: m(text, i, a) && n(text, a, b) && o(text, b, c) && p(text, c, d) && q(text, d, e)
  }

  /** `text[i..e]` is a marker: a comment that opens, around an optional slash, on `prxref:` and a section name,
      and ends at the first end of a comment behind it. */
  ghost predicate IsMarker(text: string, i: nat, e: nat) {
    OneBehindTheOther(CommentOpens, MayBeSlash, KeyStands, NameStands, CommentEnds, text, i, e)
  }

  // ---------------------------------------------------------------------------------
  // What is matched
  // ---------------------------------------------------------------------------------

  ghost predicate Means(m: EndMatcher, p: Shape) {
    forall text: string, i: nat, e: nat :: m(text, i) == Some(e) <==> p(text, i, e)
  }

  lemma {:induction false} SpaceIs(text: string, i: nat, e: nat)
    requires i <= |text|
    ensures RunEnd(text, i, IsSpace) == e <==> SpaceUpTo(text, i, e)
    decreases |text| - i
  {
    if i < |text| && IsSpace(text[i]) { SpaceIs(text, i + 1, e); }
  }

  lemma CommentsOpen()
    ensures Means(CommentAt, CommentOpens)
  {
    forall text: string, i: nat, e: nat ensures CommentAt(text, i) == Some(e) <==> CommentOpens(text, i, e) {
      if At(text, i, "<!--") { SpaceIs(text, i + 4, e); }
    }
  }

  lemma SlashesMayBe()
    ensures Means(SlashAt, MayBeSlash)
  {
    forall text: string, i: nat, e: nat ensures SlashAt(text, i) == Some(e) <==> MayBeSlash(text, i, e) {
      if i < |text| && text[i] == '/' { SpaceIs(text, i + 1, e); }
    }
  }

  lemma KeysStand()
    ensures Means(KeyAt, KeyStands)
  {
  }

  lemma NamesDiffer(text: string, i: nat)
    requires At(text, i, "generated")
    ensures !At(text, i, "original")
  {
    assert text[i] == "generated"[0] && "original"[0] == 'o';
  }

  lemma NamesStand()
    ensures Means(NameAt, NameStands)
  {
    forall text: string, i: nat, e: nat ensures NameAt(text, i) == Some(e) <==> NameStands(text, i, e) {
      if At(text, i, "generated") { NamesDiffer(text, i); }
    }
  }

  lemma {:induction false} FirstAfterIs(text: string, i: nat, lit: string, e: nat)
    ensures FirstAfter(text, i, lit) == Some(e)
       <==> i + |lit| <= e && At(text, e - |lit|, lit) && forall k :: i <= k < e - |lit| ==> !At(text, k, lit)
    decreases |text| - i
  {
    if i <= |text| && !At(text, i, lit) {
      FirstAfterIs(text, i + 1, lit, e);
    }
  }

  lemma CommentsEnd()
    ensures Means(CommentEnd, CommentEnds)
  {
    forall text: string, i: nat, e: nat ensures CommentEnd(text, i) == Some(e) <==> CommentEnds(text, i, e) {
      FirstAfterIs(text, i, "-->", e);
    }
  }

  lemma MatchedIs(m: EndMatcher, n: EndMatcher, o: EndMatcher, p: EndMatcher, q: EndMatcher,
                  m': Shape, n': Shape, o': Shape, p': Shape, q': Shape)
    requires Means(m, m') && Means(n, n') && Means(o, o') && Means(p, p') && Means(q, q')
    ensures forall text: string, i: nat, e: nat ::
              MatchedBy(m, n, o, p, q, text, i) == Some(e)
              <==> OneBehindTheOther(m', n', o', p', q', text, i, e)
  {
  }

  /** The matcher finds exactly the markers. */
  lemma MarkersAreFound()
    ensures Means(AnyMarkerAt, IsMarker)
  {
    CommentsOpen();
    SlashesMayBe();
    KeysStand();
    NamesStand();
    CommentsEnd();
    MatchedIs(CommentAt, SlashAt, KeyAt, NameAt, CommentEnd,
              CommentOpens, MayBeSlash, KeyStands, NameStands, CommentEnds);
  }

  // ---------------------------------------------------------------------------------
  // What is removed
  // ---------------------------------------------------------------------------------

  /** A stretch of text from `start` to before `end`. */
  datatype Stretch = Stretch(start: nat, end: nat)

  /** The stretches stand in order, one behind the other, from `i` on. */
  ghost predicate InOrder(text: string, cuts: seq<Stretch>, i: nat) {
    && i <= |text|
    && (cuts != [] ==> i <= cuts[0].start < cuts[0].end <= |text| && InOrder(text, cuts[1..], cuts[0].end))
  }

  /** What is left of a text from `i` on without them. */
  ghost function Without(text: string, cuts: seq<Stretch>, i: nat): string
    requires InOrder(text, cuts, i)
    decreases |cuts|
  {
    if cuts == [] then text[i..]
    else text[i..cuts[0].start] + Without(text, cuts[1..], cuts[0].end)
  }

  /** Every stretch has the shape, and no other one that has it starts outside them. */
  ghost predicate AreAll(p: Shape, text: string, cuts: seq<Stretch>, i: nat)
    requires InOrder(text, cuts, i)
    decreases |cuts|
  {
    if cuts == [] then NoneStarts(p, text, i, |text|)
    else
      && NoneStarts(p, text, i, cuts[0].start) && p(text, cuts[0].start, cuts[0].end)
      && AreAll(p, text, cuts[1..], cuts[0].end)
  }

  ghost predicate NoneStarts(p: Shape, text: string, i: nat, j: nat) {
    forall k: nat, e: nat :: i <= k < j ==> !p(text, k, e)
  }

  lemma {:induction false} RemovedAre(m: EndMatcher, p: Shape, text: string, i: nat) returns (cuts: seq<Stretch>)
    requires i <= |text| && Advances(m) && Means(m, p)
    ensures InOrder(text, cuts, i) && AreAll(p, text, cuts, i)
    ensures Removed(m, text, i) == Without(text, cuts, i)
    decreases |text| - i
  {
    if i == |text| {
      cuts := [];
    } else if m(text, i).Some? {
      var e := m(text, i).value;
      var rest := RemovedAre(m, p, text, e);
      cuts := [Stretch(i, e)] + rest;
      assert cuts[1..] == rest;
      assert text[i..i] == "";
    } else {
      cuts := RemovedAre(m, p, text, i + 1);
      StartsEarlier(m, p, text, cuts, i);
    }
  }

  lemma StartsEarlier(m: EndMatcher, p: Shape, text: string, cuts: seq<Stretch>, i: nat)
    requires i < |text| && Means(m, p) && m(text, i).None? && InOrder(text, cuts, i + 1)
    requires AreAll(p, text, cuts, i + 1)
    ensures InOrder(text, cuts, i) && AreAll(p, text, cuts, i)
    ensures Without(text, cuts, i) == [text[i]] + Without(text, cuts, i + 1)
  {
    NoneHere(m, p, text, i, if cuts == [] then |text| else cuts[0].start);
    KeptLonger(text, cuts, i);
  }

  lemma KeptLonger(text: string, cuts: seq<Stretch>, i: nat)
    requires i < |text| && InOrder(text, cuts, i + 1)
    ensures InOrder(text, cuts, i) && Without(text, cuts, i) == [text[i]] + Without(text, cuts, i + 1)
  {
    if cuts == [] {
      CharacterMore(text, i, |text|);
    } else {
      var rest := Without(text, cuts[1..], cuts[0].end);
      CharacterMore(text, i, cuts[0].start);
      assert ([text[i]] + text[i + 1..cuts[0].start]) + rest == [text[i]] + (text[i + 1..cuts[0].start] + rest);
    }
  }

  lemma NoneHere(m: EndMatcher, p: Shape, text: string, i: nat, j: nat)
    requires Means(m, p) && m(text, i).None? && NoneStarts(p, text, i + 1, j)
    ensures NoneStarts(p, text, i, j)
  {
    forall k: nat, e: nat | i <= k < j ensures !p(text, k, e) {
      assert k == i ==> m(text, k) != Some(e);
    }
  }

  lemma CharacterMore(text: string, i: nat, j: nat)
    requires i < j <= |text|
    ensures text[i..j] == [text[i]] + text[i + 1..j]
  {
  }

  /** Cleaning a text leaves what stands outside its markers, in order, without the white space around it. */
  lemma SanitizeIs(text: string) returns (cuts: seq<Stretch>)
    ensures InOrder(text, cuts, 0) && AreAll(IsMarker, text, cuts, 0)
    ensures Stripped(Without(text, cuts, 0), Sanitize(text))
  {
    MarkersAdvance();
    MarkersAreFound();
    cuts := RemovedAre(AnyMarkerAt, IsMarker, text, 0);
    StripIs(Without(text, cuts, 0));
  }

  /** The markers removed are settled by the text. */
  lemma MarkersAreSettled(text: string, cuts: seq<Stretch>, cuts': seq<Stretch>)
    requires InOrder(text, cuts, 0) && AreAll(IsMarker, text, cuts, 0)
    requires InOrder(text, cuts', 0) && AreAll(IsMarker, text, cuts', 0)
    ensures cuts == cuts'
  {
    MarkersAreFound();
    AllAreSettled(AnyMarkerAt, IsMarker, text, cuts, cuts', 0);
  }

  lemma {:induction false} AllAreSettled(m: EndMatcher, p: Shape, text: string, cuts: seq<Stretch>,
                                         cuts': seq<Stretch>, i: nat)
    requires Means(m, p) && InOrder(text, cuts, i) && InOrder(text, cuts', i)
    requires AreAll(p, text, cuts, i) && AreAll(p, text, cuts', i)
    ensures cuts == cuts'
    decreases |cuts|
  {
    if cuts != [] && cuts' != [] {
      SameStart(m, p, text, cuts[0], cuts'[0], i);
      AllAreSettled(m, p, text, cuts[1..], cuts'[1..], cuts[0].end);
      assert cuts == [cuts[0]] + cuts[1..] && cuts' == [cuts'[0]] + cuts'[1..];
    }
  }

  lemma SameStart(m: EndMatcher, p: Shape, text: string, cut: Stretch, cut': Stretch, i: nat)
    requires Means(m, p) && i <= cut.start && i <= cut'.start
    requires NoneStarts(p, text, i, cut.start) && NoneStarts(p, text, i, cut'.start)
    requires p(text, cut.start, cut.end) && p(text, cut'.start, cut'.end)
    ensures cut == cut'
  {
    assert m(text, cut.start) == Some(cut.end) && m(text, cut'.start) == Some(cut'.end);
  }
}
