/**
 Cutting a caption into plain text and resolved mentions for display, on both clients,
 from any list of mentions, valid or not.
 */
module Captions {
  import opened MentionText
  import opened StableSort
  import opened Wrappers

  /** A mention as the server returns it: a slice of the raw caption and a current username. */
  datatype Mention = Mention(userId: string, username: string, start: int, len: int)

  datatype Segment = Text(text: string) | Link(mention: Mention)

  predicate InRange(m: Mention, length: nat) {
    m.len > 0 && m.start >= 0 && m.start + m.len <= length
  }

  predicate AllInRange(ms: seq<Mention>, length: nat) {
    forall i :: 0 <= i < |ms| ==> InRange(ms[i], length)
  }

  /** The mobile client also drops mentions without a username. */
  predicate IsValid(m: Mention, length: nat, needName: bool) {
    InRange(m, length) && (needName ==> m.username != "")
  }

  function ByStart(): Mention -> real { (m: Mention) => m.start as real }

  function Usable(mentions: seq<Mention>, length: nat, needName: bool): seq<Mention> {
    if mentions == [] then []
    else
      var last := mentions[|mentions| - 1];
      Usable(mentions[..|mentions| - 1], length, needName) + (if IsValid(last, length, needName) then [last] else [])
  }

  function Ordered(mentions: seq<Mention>, length: nat, needName: bool): seq<Mention> {
    Sort(Usable(mentions, length, needName), ByStart())
  }

  function TextSegment(text: string): seq<Segment> {
    if text == "" then [] else [Text(text)]
  }

  /** The segments from `cursor` on: a mention that starts behind the cursor is skipped. */
  function Cut(caption: string, ms: seq<Mention>, cursor: nat): seq<Segment>
    requires cursor <= |caption|
    requires AllInRange(ms, |caption|)
  {
    if ms == [] then TextSegment(caption[cursor..])
    else if ms[0].start < cursor then Cut(caption, ms[1..], cursor)
    else
      TextSegment(caption[cursor..ms[0].start]) + [Link(ms[0])] + Cut(caption, ms[1..], ms[0].start + ms[0].len)
  }

  lemma {:induction false} UsableMembers(mentions: seq<Mention>, length: nat, needName: bool)
    ensures forall m :: m in Usable(mentions, length, needName) <==> m in mentions && IsValid(m, length, needName)
  {
    if mentions != [] {
      UsableMembers(mentions[..|mentions| - 1], length, needName);
    }
  }

  lemma OrderedMembers(mentions: seq<Mention>, length: nat, needName: bool)
    ensures forall m :: m in Ordered(mentions, length, needName) <==> m in mentions && IsValid(m, length, needName)
    ensures AllInRange(Ordered(mentions, length, needName), length)
  {
    UsableMembers(mentions, length, needName);
    SortMembers(Usable(mentions, length, needName), ByStart());
    var ordered := Ordered(mentions, length, needName);
    forall i | 0 <= i < |ordered|
      ensures InRange(ordered[i], length)
    {
      assert ordered[i] in ordered;
    }
  }

  lemma OrderedByStart(mentions: seq<Mention>, length: nat, needName: bool)
    ensures ByStartOrder(Ordered(mentions, length, needName))
  {
    var ordered := Ordered(mentions, length, needName);
    SortAscending(Usable(mentions, length, needName), ByStart());
    forall i, j | 0 <= i < j < |ordered|
      ensures ordered[i].start <= ordered[j].start
    {
      assert ByStart()(ordered[i]) <= ByStart()(ordered[j]);
    }
  }

  predicate ByStartOrder(ms: seq<Mention>) {
    forall i, j :: 0 <= i < j < |ms| ==> ms[i].start <= ms[j].start
  }

  function Segments(caption: string, mentions: seq<Mention>, needName: bool): seq<Segment> {
    OrderedMembers(mentions, |caption|, needName);
    Cut(caption, Ordered(mentions, |caption|, needName), 0)
  }

  // ----- what a segmentation means -----

  /** The caption text a segment stands for. */
  function Source(caption: string, segment: Segment): string {
    match segment
    case Text(text) => text
    case Link(m) => if InRange(m, |caption|) then caption[m.start..m.start + m.len] else ""
  }

  function Flatten(caption: string, segments: seq<Segment>): string {
    if segments == [] then "" else Source(caption, segments[0]) + Flatten(caption, segments[1..])
  }

  lemma FlattenCons(caption: string, first: Segment, rest: seq<Segment>)
    ensures Flatten(caption, [first] + rest) == Source(caption, first) + Flatten(caption, rest)
  {
    assert ([first] + rest)[1..] == rest;
  }

  lemma FlattenText(caption: string, text: string)
    ensures Flatten(caption, TextSegment(text)) == text
  {
    if text != "" {
      FlattenCons(caption, Text(text), []);
      assert [Text(text)] + [] == [Text(text)];
      assert text + "" == text;
    }
  }

  lemma FlattenPrepend(caption: string, text: string, m: Mention, rest: seq<Segment>)
    ensures Flatten(caption, TextSegment(text) + [Link(m)] + rest)
         == text + Source(caption, Link(m)) + Flatten(caption, rest)
  {
    var tail := [Link(m)] + rest;
    FlattenCons(caption, Link(m), rest);
    if text == "" {
      assert TextSegment(text) + [Link(m)] + rest == tail;
    } else {
      assert TextSegment(text) + [Link(m)] + rest == [Text(text)] + tail;
      FlattenCons(caption, Text(text), tail);
      Associate(text, Source(caption, Link(m)), Flatten(caption, rest));
    }
  }

  lemma Associate(a: string, b: string, c: string)
    ensures a + (b + c) == (a + b) + c
  {
  }

  lemma CutFirst(caption: string, ms: seq<Mention>, cursor: nat)
    requires cursor <= |caption|
    requires AllInRange(ms, |caption|) && ms != []
    ensures ms[0].start >= cursor ==>
      Cut(caption, ms, cursor)
      == TextSegment(caption[cursor..ms[0].start]) + [Link(ms[0])] + Cut(caption, ms[1..], ms[0].start + ms[0].len)
    ensures ms[0].start < cursor ==> Cut(caption, ms, cursor) == Cut(caption, ms[1..], cursor)
  {
  }

  lemma ThreePieces(s: string, a: nat, b: nat, c: nat)
    requires a <= b <= c <= |s|
    ensures s[a..b] + s[b..c] + s[c..] == s[a..]
  {
  }

  lemma StepLossless(caption: string, cursor: nat, m: Mention, rest: seq<Segment>)
    requires InRange(m, |caption|) && cursor <= m.start
    requires Flatten(caption, rest) == caption[m.start + m.len..]
    ensures Flatten(caption, TextSegment(caption[cursor..m.start]) + [Link(m)] + rest) == caption[cursor..]
  {
    FlattenPrepend(caption, caption[cursor..m.start], m, rest);
    ThreePieces(caption, cursor, m.start, m.start + m.len);
  }

  lemma {:induction false} CutLossless(caption: string, ms: seq<Mention>, cursor: nat)
    requires cursor <= |caption|
    requires AllInRange(ms, |caption|)
    ensures Flatten(caption, Cut(caption, ms, cursor)) == caption[cursor..]
    decreases |ms|
  {
    if ms == [] {
      FlattenText(caption, caption[cursor..]);
    } else {
      var m, end := ms[0], ms[0].start + ms[0].len;
      CutFirst(caption, ms, cursor);
      if m.start < cursor {
        CutLossless(caption, ms[1..], cursor);
      } else {
        CutLossless(caption, ms[1..], end);
        StepLossless(caption, cursor, m, Cut(caption, ms[1..], end));
      }
    }
  }

  /** Putting every mention's source slice back gives the caption, whatever the mentions are. */
  lemma SegmentationLossless(caption: string, mentions: seq<Mention>, needName: bool)
    ensures Flatten(caption, Segments(caption, mentions, needName)) == caption
  {
    OrderedMembers(mentions, |caption|, needName);
    CutLossless(caption, Ordered(mentions, |caption|, needName), 0);
    assert caption[0..] == caption;
  }

  // ----- what is shown and what is dropped -----

  /** `m` begins inside `k`. */
  predicate BeginsInside(m: Mention, k: Mention) {
    k.start <= m.start < k.start + k.len
  }

  /** The mentions a left-to-right pass keeps: each begins at or after the end of the one before. */
  function Kept(ms: seq<Mention>, cursor: int): seq<Mention> {
    if ms == [] then []
    else if ms[0].start < cursor then Kept(ms[1..], cursor)
    else [ms[0]] + Kept(ms[1..], ms[0].start + ms[0].len)
  }

  function Links(segments: seq<Segment>): seq<Mention> {
    if segments == [] then []
    else (if segments[0].Link? then [segments[0].mention] else []) + Links(segments[1..])
  }

  lemma LinksCons(first: Segment, rest: seq<Segment>)
    ensures Links([first] + rest) == (if first.Link? then [first.mention] else []) + Links(rest)
  {
    assert ([first] + rest)[1..] == rest;
  }

  lemma LinksPrepend(text: string, m: Mention, rest: seq<Segment>)
    ensures Links(TextSegment(text) + [Link(m)] + rest) == [m] + Links(rest)
  {
    var tail := [Link(m)] + rest;
    LinksCons(Link(m), rest);
    if text == "" {
      assert TextSegment(text) + [Link(m)] + rest == tail;
    } else {
      assert TextSegment(text) + [Link(m)] + rest == [Text(text)] + tail;
      LinksCons(Text(text), tail);
    }
  }

  lemma {:induction false} LinksOfCut(caption: string, ms: seq<Mention>, cursor: nat)
    requires cursor <= |caption|
    requires AllInRange(ms, |caption|)
    ensures Links(Cut(caption, ms, cursor)) == Kept(ms, cursor)
    decreases |ms|
  {
    if ms == [] {
      if caption[cursor..] != "" {
        LinksCons(Text(caption[cursor..]), []);
        assert [Text(caption[cursor..])] + [] == [Text(caption[cursor..])];
      }
    } else {
      CutFirst(caption, ms, cursor);
      if ms[0].start < cursor {
        LinksOfCut(caption, ms[1..], cursor);
      } else {
        var end := ms[0].start + ms[0].len;
        LinksOfCut(caption, ms[1..], end);
        LinksPrepend(caption[cursor..ms[0].start], ms[0], Cut(caption, ms[1..], end));
      }
    }
  }

  /** The mentions a segmentation shows, in order. */
  function Shown(caption: string, mentions: seq<Mention>, needName: bool): seq<Mention> {
    Links(Segments(caption, mentions, needName))
  }

  lemma ShownIsKept(caption: string, mentions: seq<Mention>, needName: bool)
    ensures Shown(caption, mentions, needName) == Kept(Ordered(mentions, |caption|, needName), 0)
  {
    OrderedMembers(mentions, |caption|, needName);
    LinksOfCut(caption, Ordered(mentions, |caption|, needName), 0);
  }

  lemma StartsAfterFirst(ms: seq<Mention>, m: Mention)
    requires ByStartOrder(ms) && m in ms
    ensures ms[0].start <= m.start
    ensures ByStartOrder(ms[1..])
  {
  }

  /** Everything up to the cursor belongs to `last`, the mention kept before. */
  lemma {:induction false} KeptDrops(ms: seq<Mention>, last: Mention, m: Mention)
    requires ByStartOrder(ms) && m in ms
    requires forall x :: x in ms ==> last.start <= x.start
    ensures m in Kept(ms, last.start + last.len) || BeginsInside(m, last)
      || exists k :: k in Kept(ms, last.start + last.len) && BeginsInside(m, k)
  {
    var cursor, first := last.start + last.len, ms[0];
    StartsAfterFirst(ms, m);
    if first.start < cursor {
      if m != first {
        KeptDrops(ms[1..], last, m);
      }
    } else if m != first {
      forall x | x in ms[1..]
        ensures first.start <= x.start
      {
        StartsAfterFirst(ms, x);
      }
      KeptDrops(ms[1..], first, m);
      assert first in Kept(ms, cursor);
    }
  }

  /** A mention that is not shown is invalid, or begins inside one that is shown. */
  lemma DroppedForAReason(caption: string, mentions: seq<Mention>, needName: bool, m: Mention)
    requires m in mentions && m !in Shown(caption, mentions, needName)
    ensures !IsValid(m, |caption|, needName)
      || exists k :: k in Shown(caption, mentions, needName) && BeginsInside(m, k)
  {
    var ordered := Ordered(mentions, |caption|, needName);
    OrderedMembers(mentions, |caption|, needName);
    OrderedByStart(mentions, |caption|, needName);
    ShownIsKept(caption, mentions, needName);
    if IsValid(m, |caption|, needName) {
      KeptDrops(ordered, Mention("", "", 0, 0), m);
    }
  }

  // ----- well-formed mention lists lose nothing -----

  predicate Disjoint(ms: seq<Mention>, from: int) {
    && (ms != [] ==> from <= ms[0].start)
    && forall i :: 0 < i < |ms| ==> ms[i - 1].start + ms[i - 1].len <= ms[i].start
  }

  lemma {:induction false} KeptAll(ms: seq<Mention>, cursor: int)
    requires Disjoint(ms, cursor)
    ensures Kept(ms, cursor) == ms
  {
    if ms != [] {
      KeptAll(ms[1..], ms[0].start + ms[0].len);
      assert ms == [ms[0]] + ms[1..];
    }
  }

  lemma {:induction false} UsableAll(mentions: seq<Mention>, length: nat, needName: bool)
    requires forall m :: m in mentions ==> IsValid(m, length, needName)
    ensures Usable(mentions, length, needName) == mentions
  {
    if mentions != [] {
      var n := |mentions| - 1;
      UsableAll(mentions[..n], length, needName);
      assert mentions == mentions[..n] + [mentions[n]];
    }
  }

  lemma {:induction false} DisjointStarts(ms: seq<Mention>, from: int, i: nat, j: nat)
    requires Disjoint(ms, from) && i < j < |ms|
    requires forall m :: m in ms ==> m.len > 0
    ensures ms[i].start <= ms[j].start
    decreases j - i
  {
    assert ms[j - 1] in ms;
    if i < j - 1 {
      DisjointStarts(ms, from, i, j - 1);
    }
  }

  /** `shown` is what the server returns for the mentions found in the caption: the same slices,
      each with some non-empty username. */
  predicate Resolves(shown: seq<Mention>, refs: seq<MentionRef>) {
    && |shown| == |refs|
    && forall i :: 0 <= i < |refs| ==>
         shown[i].start == refs[i].start && shown[i].len == refs[i].len && shown[i].username != ""
  }

  /** No mention that the scan produced is ever dropped, and all appear in order. */
  lemma ScannedMentionsAllShown(caption: string, names: NameTable, shown: seq<Mention>, needName: bool)
    requires Resolves(shown, Scan(caption, names))
    ensures Shown(caption, shown, needName) == shown
  {
    ScanExact(caption, names);
    ResolvedInRange(caption, Scan(caption, names), shown, needName);
    UsableAll(shown, |caption|, needName);
    forall i, j | 0 <= i < j < |shown|
      ensures ByStart()(shown[i]) <= ByStart()(shown[j])
    {
      DisjointStarts(shown, 0, i, j);
    }
    AlreadySorted(shown, ByStart());
    ShownIsKept(caption, shown, needName);
    KeptAll(shown, 0);
  }

  lemma ResolvedInRange(caption: string, refs: seq<MentionRef>, shown: seq<Mention>, needName: bool)
    requires InOrder(refs, 0, |caption|) && Resolves(shown, refs)
    ensures forall m :: m in shown ==> IsValid(m, |caption|, needName)
    ensures Disjoint(shown, 0)
  {
  }

  // ----- the two clients -----

  method SegmentCaption(caption: string, mentions: seq<Mention>) returns (segments: seq<Segment>)
    ensures segments == Segments(caption, mentions, true)
    ensures Flatten(caption, segments) == caption
  {
    SegmentationLossless(caption, mentions, true);
    OrderedMembers(mentions, |caption|, true);
    if caption == "" {
      NothingUsable(mentions, true);
      return [];
    }
    var valid := KeepUsable(mentions, |caption|, true);
    segments := CutLoop(caption, Sort(valid, ByStart()));
  }

  /** The web client renders the whole text as one node when no mention is usable. */
  method RenderCaption(text: string, mentions: seq<Mention>) returns (nodes: seq<Segment>)
    ensures nodes == if Usable(mentions, |text|, false) == [] then [Text(text)] else Segments(text, mentions, false)
    ensures Flatten(text, nodes) == text
  {
    SegmentationLossless(text, mentions, false);
    OrderedMembers(mentions, |text|, false);
    var ms := KeepUsable(mentions, |text|, false);
    if ms == [] {
      FlattenCons(text, Text(text), []);
      assert [Text(text)] + [] == [Text(text)];
      return [Text(text)];
    }
    nodes := CutLoop(text, Sort(ms, ByStart()));
  }

  method KeepUsable(mentions: seq<Mention>, length: nat, needName: bool) returns (usable: seq<Mention>)
    ensures usable == Usable(mentions, length, needName)
  {
    usable := [];
    for i := 0 to |mentions|
      invariant usable == Usable(mentions[..i], length, needName)
    {
      assert mentions[..i + 1][..i] == mentions[..i];
      if IsValid(mentions[i], length, needName) {
        usable := usable + [mentions[i]];
      }
    }
    assert mentions[..|mentions|] == mentions;
  }

  method CutLoop(caption: string, ms: seq<Mention>) returns (segments: seq<Segment>)
    requires AllInRange(ms, |caption|)
    ensures segments == Cut(caption, ms, 0)
  {
    segments := [];
    var cursor := 0;
    for i := 0 to |ms|
      invariant 0 <= cursor <= |caption|
      invariant segments + Cut(caption, ms[i..], cursor) == Cut(caption, ms, 0)
    {
      assert ms[i..][1..] == ms[i + 1..] && ms[i..][0] == ms[i];
      var m := ms[i];
      if m.start < cursor {
        continue;
      }
      if m.start > cursor {
        segments := segments + [Text(caption[cursor..m.start])];
      }
      segments := segments + [Link(m)];
      cursor := m.start + m.len;
    }
    if cursor < |caption| {
      segments := segments + [Text(caption[cursor..])];
    }
  }

  lemma {:induction false} NothingUsable(mentions: seq<Mention>, needName: bool)
    ensures Usable(mentions, 0, needName) == []
  {
    if mentions != [] {
      NothingUsable(mentions[..|mentions| - 1], needName);
    }
  }

  lemma {:induction false} NamesIrrelevant(mentions: seq<Mention>, length: nat)
    requires forall m :: m in mentions ==> m.username != ""
    ensures Usable(mentions, length, true) == Usable(mentions, length, false)
  {
    if mentions != [] {
      NamesIrrelevant(mentions[..|mentions| - 1], length);
    }
  }

  /** When every mention has a username, both clients cut a non-empty caption alike. */
  lemma ClientsAgree(caption: string, mentions: seq<Mention>)
    requires caption != "" && forall m :: m in mentions ==> m.username != ""
    ensures Segments(caption, mentions, true)
         == if Usable(mentions, |caption|, false) == [] then [Text(caption)] else Segments(caption, mentions, false)
  {
    NamesIrrelevant(mentions, |caption|);
    assert caption[0..] == caption;
  }

  // ----- no needless segments -----

  /** No text segment is empty, and none follows another. */
  predicate Tidy(segments: seq<Segment>) {
    forall i :: 0 <= i < |segments| && segments[i].Text? ==>
      segments[i].text != "" && (i + 1 < |segments| ==> segments[i + 1].Link?)
  }

  lemma TidyPrepend(text: string, m: Mention, rest: seq<Segment>)
    requires Tidy(rest)
    ensures Tidy(TextSegment(text) + [Link(m)] + rest)
  {
  }

  lemma {:induction false} CutTidy(caption: string, ms: seq<Mention>, cursor: nat)
    requires cursor <= |caption| && AllInRange(ms, |caption|)
    ensures Tidy(Cut(caption, ms, cursor))
  {
    if ms != [] {
      if ms[0].start < cursor {
        CutTidy(caption, ms[1..], cursor);
      } else {
        CutTidy(caption, ms[1..], ms[0].start + ms[0].len);
        TidyPrepend(caption[cursor..ms[0].start], ms[0], Cut(caption, ms[1..], ms[0].start + ms[0].len));
      }
    }
  }

  /** The text between two mentions is one segment, if there is any. */
  lemma SegmentsTidy(caption: string, mentions: seq<Mention>, needName: bool)
    ensures Tidy(Segments(caption, mentions, needName))
  {
    OrderedMembers(mentions, |caption|, needName);
    CutTidy(caption, Ordered(mentions, |caption|, needName), 0);
  }

  // ----- truncation -----

  /** The mentions that end within the first `max` characters. */
  function ClipMentions(mentions: seq<Mention>, max: nat): seq<Mention> {
    if mentions == [] then []
    else
      var last := mentions[|mentions| - 1];
      ClipMentions(mentions[..|mentions| - 1], max) + (if last.start + last.len <= max then [last] else [])
  }

  lemma {:induction false} ClipMembers(mentions: seq<Mention>, max: nat)
    ensures forall m :: m in ClipMentions(mentions, max) <==> m in mentions && m.start + m.len <= max
  {
    if mentions != [] {
      ClipMembers(mentions[..|mentions| - 1], max);
    }
  }

  lemma {:induction false} ClipUsable(mentions: seq<Mention>, max: nat, needName: bool)
    ensures Usable(ClipMentions(mentions, max), max, needName) == Usable(mentions, max, needName)
  {
    if mentions != [] {
      var n := |mentions| - 1;
      ClipUsable(mentions[..n], max, needName);
      var rest := ClipMentions(mentions[..n], max);
      assert (rest + [mentions[n]])[..|rest|] == rest;
      assert rest + [] == rest;
    }
  }

  /** Clipping keeps the mentions that end in time; it does not change how a truncated caption renders,
      and nothing of its text is lost. */
  lemma ClippingIsSafe(caption: string, mentions: seq<Mention>, max: nat, needName: bool)
    requires max <= |caption|
    ensures forall m :: m in ClipMentions(mentions, max) <==> m in mentions && m.start + m.len <= max
    ensures Segments(caption[..max], ClipMentions(mentions, max), needName) == Segments(caption[..max], mentions, needName)
    ensures Flatten(caption[..max], Segments(caption[..max], ClipMentions(mentions, max), needName)) == caption[..max]
  {
    ClipMembers(mentions, max);
    ClipUsable(mentions, max, needName);
    SegmentationLossless(caption[..max], ClipMentions(mentions, max), needName);
  }
}
