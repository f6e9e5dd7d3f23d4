/**
 The `@name` tokens of a caption: finding the one at the caret, inserting a mention, and
 rescanning the final text. The mobile scan ignores case and the character before `@`; the
 web scan respects both.
 */
module MentionText {
  import opened Ascii
  import opened Wrappers

  // ===== tokens =====

  /** The end of the run of word characters that starts at `i`. */
  function RunEnd(text: string, i: nat): (end: nat)
    requires i <= |text|
    ensures i <= end <= |text|
    ensures forall k :: i <= k < end ==> IsWordChar(text[k])
    ensures end < |text| ==> !IsWordChar(text[end])
    decreases |text| - i
  {
    if i < |text| && IsWordChar(text[i]) then RunEnd(text, i + 1) else i
  }

  /** An `@` with at least one word character behind it. */
  predicate IsToken(text: string, i: nat) {
    i < |text| && text[i] == '@' && RunEnd(text, i + 1) > i + 1
  }

  function NameAt(text: string, i: nat): string
    requires i < |text|
  {
    text[i + 1..RunEnd(text, i + 1)]
  }

  /** RegExp.exec with the sticky start `lastIndex`: the first token from there on, and its end. */
  method ExecToken(text: string, lastIndex: nat) returns (at: Option<nat>, end: nat)
    requires lastIndex <= |text|
    ensures at == None ==> forall j :: lastIndex <= j < |text| ==> !IsToken(text, j)
    ensures at.Some? ==>
      && lastIndex <= at.value && IsToken(text, at.value) && end == RunEnd(text, at.value + 1)
      && forall j :: lastIndex <= j < at.value ==> !IsToken(text, j)
  {
    var i := lastIndex;
    while i < |text|
      invariant lastIndex <= i <= |text|
      invariant forall j :: lastIndex <= j < i ==> !IsToken(text, j)
    {
      if text[i] == '@' {
        var k := i + 1;
        while k < |text| && IsWordChar(text[k])
          invariant i + 1 <= k <= |text|
          invariant RunEnd(text, k) == RunEnd(text, i + 1)
        {
          k := k + 1;
        }
        if k > i + 1 {
          return Some(i), k;
        }
      }
      i := i + 1;
    }
    return None, 0;
  }

  // ===== the token at the caret =====

  datatype Token = Token(query: string, start: nat, end: nat)

  /** `start` holds an `@` that begins a word, and only word characters lie between it and the caret. */
  predicate IsActive(text: string, caret: int, start: nat) {
    && start < caret <= |text|
    && text[start] == '@'
    && (forall k :: start < k < caret ==> IsWordChar(text[k]))
    && (start > 0 ==> !IsWordChar(text[start - 1]))
  }

  ghost function ActiveToken(text: string, caret: int): (r: Option<Token>)
    ensures r.Some? ==> IsActive(text, caret, r.value.start)
    ensures r.Some? ==> r.value.end == caret && r.value.query == text[r.value.start + 1..caret]
    ensures r == None ==> forall start: nat :: !IsActive(text, caret, start)
  {
    if exists start: nat :: IsActive(text, caret, start) then
      var start: nat :| IsActive(text, caret, start);
      Some(Token(text[start + 1..caret], start, caret))
    else None
  }

  /** At most one token is active at a caret. */
  lemma ActiveUnique(text: string, caret: int, a: nat, b: nat)
    requires IsActive(text, caret, a) && IsActive(text, caret, b)
    ensures a == b
  {
  }

  lemma ActiveIs(text: string, caret: int, start: nat)
    requires IsActive(text, caret, start)
    ensures ActiveToken(text, caret) == Some(Token(text[start + 1..caret], start, caret))
  {
    var r := ActiveToken(text, caret);
    ActiveUnique(text, caret, start, r.value.start);
  }

  /** No token is active when the walk left from the caret stops at `i` without an `@` there. */
  lemma NoneActive(text: string, caret: int, i: int)
    requires -1 <= i < caret <= |text|
    requires forall k :: i < k < caret ==> IsWordChar(text[k])
    requires i >= 0 ==> !IsWordChar(text[i])
    requires i < 0 || text[i] != '@' || (i > 0 && IsWordChar(text[i - 1]))
    ensures ActiveToken(text, caret) == None
  {
    forall start: nat
      ensures !IsActive(text, caret, start)
    {
      if start < i {
        assert i < caret;
      } else if start > i && start < caret {
        assert IsWordChar(text[start]);
      }
    }
  }

  /** The mobile detector. */
  method ActiveMentionToken(text: string, caret: int) returns (r: Option<Token>)
    ensures r == ActiveToken(text, caret)
  {
    if caret < 0 || caret > |text| {
      return None;
    }
    var i := caret - 1;
    while i >= 0 && IsWordChar(text[i])
      invariant -1 <= i < caret
      invariant forall k :: i < k < caret ==> IsWordChar(text[k])
    {
      i := i - 1;
    }
    if i < 0 || text[i] != '@' {
      if caret > 0 {
        NoneActive(text, caret, i);
      }
      return None;
    }
    if i > 0 && IsWordChar(text[i - 1]) {
      NoneActive(text, caret, i);
      return None;
    }
    ActiveIs(text, caret, i);
    return Some(Token(text[i + 1..caret], i, caret));
  }

  /** The web detector, which reports no end: for every caret in range it finds the same token. */
  method ActiveTokenAt(text: string, caret: nat) returns (start: nat, query: string, found: bool)
    requires caret <= |text|
    ensures found <==> ActiveToken(text, caret).Some?
    ensures found ==> ActiveToken(text, caret) == Some(Token(query, start, caret))
  {
    start, query, found := 0, "", false;
    var i := caret;
    while i > 0 && IsWordChar(text[i - 1])
      invariant 0 <= i <= caret
      invariant forall k :: i <= k < caret ==> IsWordChar(text[k])
    {
      i := i - 1;
    }
    if i == 0 || text[i - 1] != '@' {
      if caret > 0 {
        NoneActive(text, caret, i - 1);
      }
      return;
    }
    var at := i - 1;
    if at > 0 && IsWordChar(text[at - 1]) {
      NoneActive(text, caret, at);
      return;
    }
    ActiveIs(text, caret, at);
    return at, text[i..caret], true;
  }

  // ===== the mobile scan =====

  datatype Draft = Draft(userId: string, username: string)

  /** A mention on the wire. */
  datatype MentionRef = MentionRef(userId: string, start: nat, len: nat)

  type NameTable = map<string, string>

  /** User ids by lower-case name; later drafts win. */
  function LowerNames(drafts: seq<Draft>): NameTable {
    if drafts == [] then map[]
    else
      var last := drafts[|drafts| - 1];
      LowerNames(drafts[..|drafts| - 1])[Lower(last.username) := last.userId]
  }

  /** The mention at position `i`: a token whose name is recorded, under a non-empty id. */
  function MentionAt(text: string, names: NameTable, i: nat): Option<MentionRef> {
    if !IsToken(text, i) then None
    else
      var name := Lower(NameAt(text, i));
      if name in names && names[name] != "" then Some(MentionRef(names[name], i, 1 + |name|)) else None
  }

  function AsSeq<T>(o: Option<T>): seq<T> {
    if o.Some? then [o.value] else []
  }

  /** What `f` finds at the positions in [i, j), in order. */
  function Collect<T>(f: nat -> Option<T>, i: nat, j: nat): seq<T>
    requires i <= j
    decreases j - i
  {
    if i == j then [] else AsSeq(f(i)) + Collect(f, i + 1, j)
  }

  function Marker(text: string, names: NameTable): nat -> Option<MentionRef> {
    (i: nat) => MentionAt(text, names, i)
  }

  /** The mentions that start in [i, j), in order. */
  function ScanRange(text: string, names: NameTable, i: nat, j: nat): seq<MentionRef>
    requires i <= j
  {
    Collect(Marker(text, names), i, j)
  }

  function Scan(text: string, names: NameTable): seq<MentionRef> {
    ScanRange(text, names, 0, |text|)
  }

  lemma {:induction false} CollectNone<T>(f: nat -> Option<T>, i: nat, j: nat)
    requires i <= j
    requires forall k: nat :: i <= k < j ==> f(k) == None
    ensures Collect(f, i, j) == []
    decreases j - i
  {
    if i < j {
      CollectNone(f, i + 1, j);
    }
  }

  lemma {:induction false} CollectSplit<T>(f: nat -> Option<T>, i: nat, j: nat, k: nat)
    requires i <= j <= k
    ensures Collect(f, i, k) == Collect(f, i, j) + Collect(f, j, k)
    decreases j - i
  {
    if i < j {
      CollectSplit(f, i + 1, j, k);
    }
  }

  /** Skipping positions where nothing is found. */
  lemma CollectSkip<T>(f: nat -> Option<T>, i: nat, j: nat, k: nat)
    requires i <= j <= k
    requires forall p: nat :: i <= p < j ==> f(p) == None
    ensures Collect(f, i, k) == Collect(f, j, k)
  {
    CollectSplit(f, i, j, k);
    CollectNone(f, i, j);
  }

  lemma {:induction false} CollectSame<T>(f: nat -> Option<T>, g: nat -> Option<T>, i: nat, j: nat)
    requires i <= j
    requires forall k: nat :: i <= k < j ==> f(k) == g(k)
    ensures Collect(f, i, j) == Collect(g, i, j)
    decreases j - i
  {
    if i < j {
      CollectSame(f, g, i + 1, j);
    }
  }

  method ComputeMentions(text: string, drafts: seq<Draft>) returns (out: seq<MentionRef>)
    ensures out == Scan(text, LowerNames(drafts))
  {
    ghost var names := LowerNames(drafts);
    if drafts == [] {
      CollectNone(Marker(text, names), 0, |text|);
      return [];
    }
    var byName := BuildNames(drafts);
    out := [];
    var lastIndex := 0;
    while true
      invariant 0 <= lastIndex <= |text|
      invariant out + ScanRange(text, names, lastIndex, |text|) == Scan(text, names)
      decreases |text| - lastIndex
    {
      var at, end := ExecToken(text, lastIndex);
      if at == None {
        NoTokensLeft(text, names, lastIndex);
        return;
      }
      ScanToken(text, names, lastIndex, at.value);
      var found := MentionOf(text, byName, at.value, end);
      AppendFound(out, found, ScanRange(text, names, end, |text|));
      out := out + found;
      lastIndex := end;
    }
  }

  lemma NoTokensLeft(text: string, names: NameTable, i: nat)
    requires i <= |text|
    requires forall j :: i <= j < |text| ==> !IsToken(text, j)
    ensures ScanRange(text, names, i, |text|) == []
  {
    CollectNone(Marker(text, names), i, |text|);
  }

  lemma AppendFound(out: seq<MentionRef>, found: seq<MentionRef>, rest: seq<MentionRef>)
    ensures out + (found + rest) == (out + found) + rest
  {
  }

  predicate IsLastPick(drafts: seq<Draft>, name: string, i: nat)
    requires i < |drafts|
  {
    Lower(drafts[i].username) == name && forall k :: i < k < |drafts| ==> Lower(drafts[k].username) != name
  }

  /** A name is recorded, in lower case, exactly if some pick has it; and under the id of the last such pick. */
  lemma {:induction false} LastPickCounts(drafts: seq<Draft>, name: string)
    ensures name in LowerNames(drafts) <==> exists i :: 0 <= i < |drafts| && Lower(drafts[i].username) == name
    ensures forall i :: 0 <= i < |drafts| && IsLastPick(drafts, name, i) ==>
      name in LowerNames(drafts) && LowerNames(drafts)[name] == drafts[i].userId
  {
    if drafts != [] {
      var n := |drafts| - 1;
      var last := drafts[n];
      LastPickCounts(drafts[..n], name);
      assert drafts == drafts[..n] + [last];
      OneMorePick(drafts[..n], last, name);
    }
  }

  lemma OneMorePick(drafts: seq<Draft>, last: Draft, name: string)
    ensures (exists i :: 0 <= i < |drafts + [last]| && Lower((drafts + [last])[i].username) == name)
       <==> Lower(last.username) == name || exists i :: 0 <= i < |drafts| && Lower(drafts[i].username) == name
    ensures forall i :: 0 <= i < |drafts + [last]| ==>
      (IsLastPick(drafts + [last], name, i)
       <==> if i == |drafts| then Lower(last.username) == name
            else Lower(last.username) != name && IsLastPick(drafts, name, i))
  {
    var all := drafts + [last];
    assert forall k :: 0 <= k < |drafts| ==> all[k] == drafts[k];
    assert all[|drafts|] == last;
    if Lower(last.username) == name {
      assert Lower(all[|drafts|].username) == name;
    }
    forall i | 0 <= i < |drafts| && Lower(drafts[i].username) == name
      ensures Lower(all[i].username) == name
    {
    }
  }

  method BuildNames(drafts: seq<Draft>) returns (byName: NameTable)
    ensures byName == LowerNames(drafts)
  {
    byName := map[];
    for i := 0 to |drafts|
      invariant byName == LowerNames(drafts[..i])
    {
      assert drafts[..i + 1][..i] == drafts[..i];
      byName := byName[Lower(drafts[i].username) := drafts[i].userId];
    }
    assert drafts[..|drafts|] == drafts;
  }

  /** The loop body of the scan: what one match pushes. */
  method MentionOf(text: string, byName: NameTable, at: nat, end: nat) returns (found: seq<MentionRef>)
    requires IsToken(text, at) && end == RunEnd(text, at + 1)
    ensures found == AsSeq(MentionAt(text, byName, at))
  {
    var word := Lower(text[at + 1..end]);
    if word in byName && byName[word] != "" {
      return [MentionRef(byName[word], at, end - at)];
    }
    return [];
  }

  lemma NoTokenInName(text: string, at: nat, k: nat)
    requires IsToken(text, at) && at < k < RunEnd(text, at + 1)
    ensures !IsToken(text, k)
  {
    assert IsWordChar(text[k]);
  }

  /** Skipping to the first token and past its name misses no other mention. */
  lemma ScanToken(text: string, names: NameTable, i: nat, at: nat)
    requires i <= at && IsToken(text, at)
    requires forall j :: i <= j < at ==> !IsToken(text, j)
    ensures ScanRange(text, names, i, |text|)
         == AsSeq(MentionAt(text, names, at)) + ScanRange(text, names, RunEnd(text, at + 1), |text|)
  {
    var f, end := Marker(text, names), RunEnd(text, at + 1);
    CollectSkip(f, i, at, |text|);
    forall k: nat | at + 1 <= k < end
      ensures f(k) == None
    {
      NoTokenInName(text, at, k);
    }
    CollectSkip(f, at + 1, end, |text|);
  }

  /** In range, at least two characters each, and none overlapping the next. */
  predicate InOrder(refs: seq<MentionRef>, lo: nat, hi: nat) {
    && (forall k :: 0 <= k < |refs| ==> lo <= refs[k].start && refs[k].len >= 2 && refs[k].start + refs[k].len <= hi)
    && (forall k :: 0 < k < |refs| ==> refs[k - 1].start + refs[k - 1].len <= refs[k].start)
  }

  lemma MentionShape(text: string, names: NameTable, i: nat)
    requires MentionAt(text, names, i).Some?
    ensures var m := MentionAt(text, names, i).value;
      i < |text| && m.start == i && m.len >= 2 && i + m.len == RunEnd(text, i + 1) <= |text|
  {
  }

  lemma InOrderPrepend(m: MentionRef, refs: seq<MentionRef>, lo: nat, mid: nat, hi: nat)
    requires InOrder(refs, mid, hi)
    requires lo <= m.start && m.len >= 2 && m.start + m.len <= mid <= hi
    ensures InOrder([m] + refs, lo, hi)
  {
  }

  lemma {:induction false} CollectMembers<T>(f: nat -> Option<T>, i: nat, j: nat, x: T)
    requires i <= j
    ensures x in Collect(f, i, j) <==> exists k: nat :: i <= k < j && f(k) == Some(x)
    decreases j - i
  {
    if i < j {
      CollectMembers(f, i + 1, j, x);
      assert x in AsSeq(f(i)) <==> f(i) == Some(x);
    }
  }

  lemma {:induction false} ScanInOrder(text: string, names: NameTable, i: nat)
    requires i <= |text|
    ensures InOrder(ScanRange(text, names, i, |text|), i, |text|)
    decreases |text| - i
  {
    if i < |text| {
      var here := MentionAt(text, names, i);
      if here.Some? {
        MentionShape(text, names, i);
        ScanToken(text, names, i, i);
        ScanInOrder(text, names, RunEnd(text, i + 1));
        InOrderPrepend(here.value, ScanRange(text, names, RunEnd(text, i + 1), |text|), i, RunEnd(text, i + 1), |text|);
      } else {
        ScanInOrder(text, names, i + 1);
      }
    }
  }

  /** The scan is exact: it lists precisely the mention positions, in increasing order, inside the
      text, none overlapping the next. */
  lemma ScanExact(text: string, names: NameTable)
    ensures forall m :: m in Scan(text, names) <==> MentionAt(text, names, m.start) == Some(m)
    ensures InOrder(Scan(text, names), 0, |text|)
  {
    ScanInOrder(text, names, 0);
    forall m: MentionRef
      ensures m in Scan(text, names) <==> MentionAt(text, names, m.start) == Some(m)
    {
      var f := Marker(text, names);
      CollectMembers(f, 0, |text|, m);
      if f(m.start) == Some(m) {
        MentionShape(text, names, m.start);
      }
      if m in Scan(text, names) {
        var k: nat :| 0 <= k < |text| && f(k) == Some(m);
        MentionShape(text, names, k);
      }
    }
  }

  // ===== insertion =====

  datatype Edit = Edit(text: string, caret: nat)

  /** Replaces the token by `@username`, with a space behind it unless one follows or the text ends. */
  function InsertMention(text: string, start: nat, end: nat, username: string): Edit
    requires start <= end <= |text|
  {
    var before, after := text[..start], text[end..];
    var sep := if " " <= after || after == "" then "" else " ";
    var head := before + "@" + username + sep;
    Edit(head + after, |head|)
  }

  predicate IsUsername(name: string) {
    name != "" && forall i :: 0 <= i < |name| ==> IsWordChar(name[i])
  }

  /** The same mentions, `delta` positions further on. */
  predicate IsShift(refs: seq<MentionRef>, moved: seq<MentionRef>, delta: int) {
    && |refs| == |moved|
    && forall k :: 0 <= k < |refs| ==> SameBut(refs[k], moved[k], delta)
  }

  predicate SameBut(m: MentionRef, n: MentionRef, delta: int) {
    n.userId == m.userId && n.len == m.len && n.start == m.start + delta
  }

  lemma {:induction false} RunEndUntil(s: string, t: string, stop: nat, i: nat)
    requires i <= stop < |s| && stop < |t|
    requires s[..stop + 1] == t[..stop + 1]
    requires !IsWordChar(s[stop])
    ensures RunEnd(s, i) == RunEnd(t, i) <= stop
    decreases stop - i
  {
    assert forall k :: 0 <= k <= stop ==> s[k] == s[..stop + 1][k] == t[k];
    if i < stop {
      RunEndUntil(s, t, stop, i + 1);
    }
  }

  lemma MentionUntil(s: string, t: string, names: NameTable, stop: nat, i: nat)
    requires i < stop < |s| && stop < |t|
    requires s[..stop + 1] == t[..stop + 1]
    requires !IsWordChar(s[stop])
    ensures MentionAt(s, names, i) == MentionAt(t, names, i)
  {
    RunEndUntil(s, t, stop, i + 1);
    var end := RunEnd(s, i + 1);
    assert forall k :: 0 <= k <= stop ==> s[k] == s[..stop + 1][k] == t[k];
    assert s[i + 1..end] == t[i + 1..end];
  }

  /** Texts that agree up to a non-word character have the same mentions before it. */
  lemma ScanBefore(s: string, t: string, names: NameTable, stop: nat)
    requires stop < |s| && stop < |t|
    requires s[..stop + 1] == t[..stop + 1]
    requires !IsWordChar(s[stop])
    ensures ScanRange(s, names, 0, stop) == ScanRange(t, names, 0, stop)
  {
    forall i: nat | 0 <= i < stop
      ensures Marker(s, names)(i) == Marker(t, names)(i)
    {
      MentionUntil(s, t, names, stop, i);
    }
    CollectSame(Marker(s, names), Marker(t, names), 0, stop);
  }

  lemma {:induction false} RunEndShifted(s: string, a: nat, t: string, b: nat, k: nat)
    requires a <= |s| && b <= |t| && s[a..] == t[b..]
    requires k <= |s| - a
    ensures RunEnd(t, b + k) - b == RunEnd(s, a + k) - a
    decreases |s| - a - k
  {
    assert |s| - a == |t| - b;
    if k < |s| - a {
      assert s[a + k] == s[a..][k] == t[b..][k] == t[b + k];
      RunEndShifted(s, a, t, b, k + 1);
    }
  }

  lemma MentionShifted(s: string, a: nat, t: string, b: nat, names: NameTable, k: nat)
    requires a <= |s| && b <= |t| && s[a..] == t[b..]
    requires k < |s| - a
    ensures b + k < |t|
    ensures IsShift(AsSeq(MentionAt(s, names, a + k)), AsSeq(MentionAt(t, names, b + k)), b - a)
  {
    RunEndShifted(s, a, t, b, k + 1);
    assert s[a + k] == s[a..][k] == t[b..][k] == t[b + k];
    var n := RunEnd(s, a + k + 1) - a;
    SliceOfDrop(s, a, k + 1, n);
    SliceOfDrop(t, b, k + 1, n);
  }

  lemma SliceOfDrop(s: string, a: nat, lo: nat, hi: nat)
    requires a <= |s| && lo <= hi <= |s| - a
    ensures s[a..][lo..hi] == s[a + lo..a + hi]
  {
    forall i | 0 <= i < hi - lo
      ensures s[a..][lo..hi][i] == s[a + lo..a + hi][i]
    {
      assert s[a..][lo..hi][i] == s[a..][lo + i] == s[a + lo + i];
    }
  }

  lemma ShiftPrepend(here: seq<MentionRef>, there: seq<MentionRef>, rest: seq<MentionRef>, moved: seq<MentionRef>, delta: int)
    requires IsShift(here, there, delta) && IsShift(rest, moved, delta)
    ensures IsShift(here + rest, there + moved, delta)
  {
  }

  predicate ShiftAt(f: nat -> Option<MentionRef>, g: nat -> Option<MentionRef>, a: nat, b: nat, p: nat) {
    IsShift(AsSeq(f(a + p)), AsSeq(g(b + p)), b - a)
  }

  lemma {:induction false} CollectShifted(f: nat -> Option<MentionRef>, g: nat -> Option<MentionRef>,
                                          a: nat, b: nat, n: nat, k: nat)
    requires k <= n
    requires forall p: nat :: p < n ==> ShiftAt(f, g, a, b, p)
    ensures IsShift(Collect(f, a + k, a + n), Collect(g, b + k, b + n), b - a)
    decreases n - k
  {
    if k < n {
      CollectShifted(f, g, a, b, n, k + 1);
      assert ShiftAt(f, g, a, b, k);
      ShiftPrepend(AsSeq(f(a + k)), AsSeq(g(b + k)), Collect(f, a + k + 1, a + n), Collect(g, b + k + 1, b + n), b - a);
    }
  }

  /** Equal suffixes have the same mentions, shifted. */
  lemma ScanAfter(s: string, a: nat, t: string, b: nat, names: NameTable)
    requires a <= |s| && b <= |t| && s[a..] == t[b..]
    ensures IsShift(ScanRange(s, names, a, |s|), ScanRange(t, names, b, |t|), b - a)
  {
    var n := |s| - a;
    assert |s[a..]| == n && |t[b..]| == |t| - b;
    forall p: nat | p < n
      ensures ShiftAt(Marker(s, names), Marker(t, names), a, b, p)
    {
      MentionShifted(s, a, t, b, names, p);
    }
    CollectShifted(Marker(s, names), Marker(t, names), a, b, n, 0);
  }

  /** Where the inserted mention sits in the new text. */
  lemma InsertedToken(text: string, start: nat, end: nat, username: string)
    requires start < end <= |text| && text[start] == '@' && IsUsername(username)
    ensures var e := InsertMention(text, start, end, username);
      && start + 1 + |username| <= e.caret <= |e.text|
      && e.text[..start + 1] == text[..start + 1]
      && IsToken(e.text, start) && NameAt(e.text, start) == username
      && (forall k :: start < k < e.caret ==> e.text[k] != '@')
      && e.text[e.caret..] == text[end..]
      // one space is put behind the name, unless the text ends there or goes on with one
      && (if end == |text| || text[end] == ' ' then e.caret == start + 1 + |username|
          else e.caret == start + 2 + |username| && e.text[e.caret - 1] == ' ')
  {
    var e := InsertMention(text, start, end, username);
    var after := text[end..];
    var n := start + 1 + |username|;
    assert e.text[start + 1..n] == username;
    assert forall k :: start + 1 <= k < n ==> e.text[k] == username[k - start - 1];
    assert n < e.caret ==> e.text[n] == ' ';
    assert n == e.caret && n < |e.text| ==> e.text[n] == after[0] == ' ';
    RunEndIs(e.text, start + 1, n);
  }

  lemma {:induction false} RunEndIs(text: string, i: nat, n: nat)
    requires i <= n <= |text|
    requires forall k :: i <= k < n ==> IsWordChar(text[k])
    requires n < |text| ==> !IsWordChar(text[n])
    ensures RunEnd(text, i) == n
    decreases n - i
  {
    if i < n {
      RunEndIs(text, i + 1, n);
    }
  }

  /** Inserting a recorded username at the active token and rescanning gives the old mentions before
      the token, then the new mention at the token's start, then the old mentions from the caret on,
      shifted by the change in length. Whatever the old token was, it is gone. */
  lemma MentionSplice(text: string, caret: nat, start: nat, username: string, names: NameTable)
    requires IsActive(text, caret, start)
    requires IsUsername(username)
    requires Lower(username) in names && names[Lower(username)] != ""
    ensures var e := InsertMention(text, start, caret, username);
      && |e.text| - |text| == e.caret - caret
      && Scan(text, names)
         == ScanRange(text, names, 0, start) + AsSeq(MentionAt(text, names, start)) + ScanRange(text, names, caret, |text|)
      && Scan(e.text, names)
         == ScanRange(text, names, 0, start)
            + [MentionRef(names[Lower(username)], start, 1 + |username|)]
            + ScanRange(e.text, names, e.caret, |e.text|)
      && IsShift(ScanRange(text, names, caret, |text|), ScanRange(e.text, names, e.caret, |e.text|), e.caret - caret)
  {
    var e := InsertMention(text, start, caret, username);
    InsertedToken(text, start, caret, username);
    SpliceScan(text, caret, e.text, e.caret, start, names);
  }

  /** Replacing what follows an `@`, up to equal suffixes, changes only the mention at that `@`. */
  lemma SpliceScan(s: string, a: nat, t: string, b: nat, start: nat, names: NameTable)
    requires start < a <= |s| && start < b <= |t|
    requires s[..start + 1] == t[..start + 1] && s[start] == '@'
    requires forall k :: start < k < a ==> s[k] != '@'
    requires forall k :: start < k < b ==> t[k] != '@'
    requires s[a..] == t[b..]
    ensures Scan(s, names)
         == ScanRange(s, names, 0, start) + AsSeq(MentionAt(s, names, start)) + ScanRange(s, names, a, |s|)
    ensures Scan(t, names)
         == ScanRange(s, names, 0, start) + AsSeq(MentionAt(t, names, start)) + ScanRange(t, names, b, |t|)
    ensures IsShift(ScanRange(s, names, a, |s|), ScanRange(t, names, b, |t|), b - a)
  {
    OneTokenInside(s, names, start, a);
    OneTokenInside(t, names, start, b);
    ScanBefore(s, t, names, start);
    ScanAfter(s, a, t, b, names);
  }

  /** A stretch with an `@` only at its start contributes at most that mention. */
  lemma OneTokenInside(text: string, names: NameTable, start: nat, end: nat)
    requires start < end <= |text|
    requires forall k :: start < k < end ==> text[k] != '@'
    ensures Scan(text, names)
         == ScanRange(text, names, 0, start) + AsSeq(MentionAt(text, names, start))
            + ScanRange(text, names, end, |text|)
  {
    var f := Marker(text, names);
    CollectSplit(f, 0, start, |text|);
    CollectSkip(f, start + 1, end, |text|);
  }

  // ===== the web scan =====

  /** User ids by exact name; later picks win. */
  function ExactNames(drafts: seq<Draft>): NameTable {
    if drafts == [] then map[]
    else
      var last := drafts[|drafts| - 1];
      ExactNames(drafts[..|drafts| - 1])[last.username := last.userId]
  }

  predicate LeftBoundary(text: string, i: nat)
    requires i <= |text|
  {
    i == 0 || !IsWordChar(text[i - 1])
  }

  function WebMentionAt(text: string, recorded: NameTable, i: nat): Option<MentionRef> {
    if !IsToken(text, i) || !LeftBoundary(text, i) then None
    else
      var name := NameAt(text, i);
      if name in recorded && recorded[name] != "" then Some(MentionRef(recorded[name], i, 1 + |name|)) else None
  }

  function WebMarker(text: string, recorded: NameTable): nat -> Option<MentionRef> {
    (i: nat) => WebMentionAt(text, recorded, i)
  }

  function WebScanRange(text: string, recorded: NameTable, i: nat, j: nat): seq<MentionRef>
    requires i <= j
  {
    Collect(WebMarker(text, recorded), i, j)
  }

  function WebScan(text: string, recorded: NameTable): seq<MentionRef> {
    WebScanRange(text, recorded, 0, |text|)
  }

  lemma NoTokensOnWeb(text: string, recorded: NameTable, i: nat)
    requires i <= |text|
    requires forall j :: i <= j < |text| ==> !IsToken(text, j)
    ensures WebScanRange(text, recorded, i, |text|) == []
  {
    CollectNone(WebMarker(text, recorded), i, |text|);
  }

  method DeriveMentions(caption: string, recorded: NameTable) returns (out: seq<MentionRef>)
    ensures out == WebScan(caption, recorded)
  {
    out := [];
    var lastIndex := 0;
    while true
      invariant 0 <= lastIndex <= |caption|
      invariant out + WebScanRange(caption, recorded, lastIndex, |caption|) == WebScan(caption, recorded)
      decreases |caption| - lastIndex
    {
      var at, end := ExecToken(caption, lastIndex);
      if at == None {
        NoTokensOnWeb(caption, recorded, lastIndex);
        return;
      }
      WebScanToken(caption, recorded, lastIndex, at.value);
      var found := WebMentionOf(caption, recorded, at.value, end);
      AppendFound(out, found, WebScanRange(caption, recorded, end, |caption|));
      out := out + found;
      lastIndex := end;
    }
  }

  /** The loop body of the web scan: what one match pushes. */
  method WebMentionOf(caption: string, recorded: NameTable, at: nat, end: nat) returns (found: seq<MentionRef>)
    requires IsToken(caption, at) && end == RunEnd(caption, at + 1)
    ensures found == AsSeq(WebMentionAt(caption, recorded, at))
  {
    if at > 0 && IsWordChar(caption[at - 1]) {
      return [];
    }
    var name := caption[at + 1..end];
    if name in recorded && recorded[name] != "" {
      return [MentionRef(recorded[name], at, end - at)];
    }
    return [];
  }

  lemma WebScanToken(text: string, recorded: NameTable, i: nat, at: nat)
    requires i <= at && IsToken(text, at)
    requires forall j :: i <= j < at ==> !IsToken(text, j)
    ensures WebScanRange(text, recorded, i, |text|)
         == AsSeq(WebMentionAt(text, recorded, at)) + WebScanRange(text, recorded, RunEnd(text, at + 1), |text|)
  {
    var f, end := WebMarker(text, recorded), RunEnd(text, at + 1);
    CollectSkip(f, i, at, |text|);
    forall k: nat | at + 1 <= k < end
      ensures f(k) == None
    {
      NoTokenInName(text, at, k);
    }
    CollectSkip(f, at + 1, end, |text|);
  }

  // ===== the two clients compared =====

  /** No two picks have names that differ in case only. */
  predicate UniqueUpToCase(drafts: seq<Draft>) {
    forall i, j :: 0 <= i < |drafts| && 0 <= j < |drafts| && Lower(drafts[i].username) == Lower(drafts[j].username)
      ==> drafts[i].username == drafts[j].username
  }

  lemma {:induction false} TablesAgree(drafts: seq<Draft>, name: string)
    requires UniqueUpToCase(drafts)
    ensures name in ExactNames(drafts) <==> exists i :: 0 <= i < |drafts| && drafts[i].username == name
    ensures name in ExactNames(drafts) ==>
      Lower(name) in LowerNames(drafts) && LowerNames(drafts)[Lower(name)] == ExactNames(drafts)[name]
  {
    if drafts != [] {
      var n := |drafts| - 1;
      TablesAgree(drafts[..n], name);
      if name in ExactNames(drafts) && drafts[n].username != name {
        var i :| 0 <= i < n && drafts[..n][i].username == name;
        assert drafts[i].username == name;
        assert Lower(drafts[n].username) != Lower(name);
      }
      if exists i :: 0 <= i < |drafts| && drafts[i].username == name {
        var i :| 0 <= i < |drafts| && drafts[i].username == name;
        assert i < n ==> drafts[..n][i].username == name;
      }
    }
  }

  /** The part of the mobile scan the web scan reports: a left boundary and the exact case. */
  predicate WebSees(text: string, recorded: NameTable, m: MentionRef) {
    IsToken(text, m.start) && LeftBoundary(text, m.start) && NameAt(text, m.start) in recorded
  }

  function SeenByWeb(text: string, recorded: NameTable, refs: seq<MentionRef>): seq<MentionRef> {
    if refs == [] then []
    else (if WebSees(text, recorded, refs[0]) then [refs[0]] else []) + SeenByWeb(text, recorded, refs[1..])
  }

  lemma WebMentionIsPart(text: string, drafts: seq<Draft>, i: nat)
    requires UniqueUpToCase(drafts)
    ensures AsSeq(WebMentionAt(text, ExactNames(drafts), i))
         == SeenByWeb(text, ExactNames(drafts), AsSeq(MentionAt(text, LowerNames(drafts), i)))
  {
    if IsToken(text, i) {
      TablesAgree(drafts, NameAt(text, i));
    }
  }

  lemma {:induction false} WebCollectIsPart(text: string, drafts: seq<Draft>, i: nat)
    requires UniqueUpToCase(drafts) && i <= |text|
    ensures WebScanRange(text, ExactNames(drafts), i, |text|)
         == SeenByWeb(text, ExactNames(drafts), ScanRange(text, LowerNames(drafts), i, |text|))
    decreases |text| - i
  {
    if i < |text| {
      WebCollectIsPart(text, drafts, i + 1);
      WebMentionIsPart(text, drafts, i);
      var head, rest := AsSeq(MentionAt(text, LowerNames(drafts), i)), ScanRange(text, LowerNames(drafts), i + 1, |text|);
      assert ScanRange(text, LowerNames(drafts), i, |text|) == head + rest;
      SeenConcat(text, ExactNames(drafts), head, rest);
    }
  }

  /** With names unique up to case, the web scan is exactly that part of the mobile scan. */
  lemma WebScanIsPart(text: string, drafts: seq<Draft>)
    requires UniqueUpToCase(drafts)
    ensures WebScan(text, ExactNames(drafts))
         == SeenByWeb(text, ExactNames(drafts), Scan(text, LowerNames(drafts)))
  {
    WebCollectIsPart(text, drafts, 0);
  }

  lemma {:induction false} SeenAtMost(text: string, recorded: NameTable, refs: seq<MentionRef>)
    ensures |SeenByWeb(text, recorded, refs)| <= |refs|
    ensures SeenByWeb(text, recorded, refs) == refs <==> forall m :: m in refs ==> WebSees(text, recorded, m)
  {
    if refs != [] {
      var rest := SeenByWeb(text, recorded, refs[1..]);
      SeenAtMost(text, recorded, refs[1..]);
      assert refs == [refs[0]] + refs[1..];
      if WebSees(text, recorded, refs[0]) {
        assert ([refs[0]] + rest)[1..] == rest;
      } else {
        assert SeenByWeb(text, recorded, refs) == rest;
      }
    }
  }

  /** Every mention begins at a left boundary, in the recorded case. */
  ghost predicate NoneGluedOrRecased(text: string, drafts: seq<Draft>) {
    forall i: nat :: MentionAt(text, LowerNames(drafts), i).Some? ==>
      LeftBoundary(text, i) && NameAt(text, i) in ExactNames(drafts)
  }

  /** With names unique up to case, the two clients report the same mentions exactly when no mention of
      the mobile scan is glued to a word or spelled in another case. */
  lemma ScansAgreeIff(text: string, drafts: seq<Draft>)
    requires UniqueUpToCase(drafts)
    ensures WebScan(text, ExactNames(drafts)) == Scan(text, LowerNames(drafts))
       <==> NoneGluedOrRecased(text, drafts)
  {
    var names, recorded := LowerNames(drafts), ExactNames(drafts);
    WebScanIsPart(text, drafts);
    SeenAtMost(text, recorded, Scan(text, names));
    ScanExact(text, names);
    forall i: nat | MentionAt(text, names, i).Some?
      ensures MentionAt(text, names, i).value in Scan(text, names) && MentionAt(text, names, i).value.start == i
    {
      MentionShape(text, names, i);
    }
  }

  lemma SeenConcat(text: string, recorded: NameTable, head: seq<MentionRef>, rest: seq<MentionRef>)
    requires |head| <= 1
    ensures SeenByWeb(text, recorded, head + rest)
         == SeenByWeb(text, recorded, head) + SeenByWeb(text, recorded, rest)
  {
    if head == [] {
      assert head + rest == rest;
    } else {
      assert (head + rest)[1..] == rest && head[1..] == [];
    }
  }

  lemma GluedScans(text: string, names: NameTable)
    requires text == "a@b" && names == map["b" := "7"]
    ensures Scan(text, names) == [MentionRef("7", 1, 2)]
    ensures WebScan(text, names) == []
    ensures ActiveToken(text, 3) == None
  {
    RunEndIs(text, 2, 3);
    assert NameAt(text, 1) == "b" && Lower("b") == "b";
    assert MentionAt(text, names, 1) == Some(MentionRef("7", 1, 2));
    CollectSkip(Marker(text, names), 0, 1, 3);
    CollectSkip(Marker(text, names), 2, 3, 3);
    CollectNone(WebMarker(text, names), 0, 3);
    NoneActive(text, 3, 1);
  }

  /** The clients do differ: behind a word character only the mobile scan reports a mention, although
      no token was ever active there. */
  lemma GluedMentionOnMobileOnly()
    ensures Scan("a@b", map["b" := "7"]) == [MentionRef("7", 1, 2)]
    ensures WebScan("a@b", map["b" := "7"]) == []
    ensures ActiveToken("a@b", 3) == None
  {
    GluedScans("a@b", map["b" := "7"]);
  }
}
