// The AT command front end of components/ln_at/ln_at_server.c with the macros of ln_at.h, in the default
// configuration: a line editor that hands its buffer to the parser task by a busy flag and a semaphore.
module AtServer {
  type byte = x: int | 0 <= x < 256

  const MAX: nat := 512
  const ESC: byte := 0x1B
  const BACKSPACE: byte := 0x08
  const DELETE: byte := 0x7F
  const CR: byte := 13
  const LF: byte := 10

  predicate IsPrint(ch: byte) { 0x20 <= ch <= 0x7E }

  predicate IsEnd(ch: byte) { ch == CR || ch == LF }

  function Cleared(): (b: seq<byte>)
    ensures |b| == MAX && forall i | 0 <= i < MAX :: b[i] == 0
  {
    seq(MAX, _ => 0)
  }

  /** "\r\n" starts at position i. */
  predicate CrlfAt(p: seq<byte>, i: nat) { i + 1 < |p| && p[i] == CR && p[i + 1] == LF }

  /** strstr(b, "\r\n") != NULL: an occurrence before the first NUL of the buffer. */
  ghost predicate StrStrCrlf(b: seq<byte>) { exists i: nat :: CrlfAt(b, i) && forall k | 0 <= k < i :: b[k] != 0 }

  /** The search comes to an end inside the buffer: at a NUL or at the mark. */
  ghost predicate StopsInside(b: seq<byte>) { exists i: nat :: i < |b| && (b[i] == 0 || CrlfAt(b, i)) }

  // --- the state of the two tasks ---

  /** Where the preparser is: waiting, with the status just read, and at the three places after the store. */
  datatype Pre = Ready | Read(ch: byte, seenBusy: bool) | SetBusy(ch: byte) | Release(ch: byte) | Epilogue(ch: byte) | Reset

  /** Where the parser task is: waiting on the semaphore, parsing and executing, and about to clear the status. */
  datatype Psr = Waiting | Parsing | Finishing

  /** The shared server, the semaphore, both program counters, and the lines dispatched and handled so far. */
  datatype Server = Server(index: nat, buf: seq<byte>, busy: bool, prevCh: byte, sem: nat, pre: Pre, psr: Psr,
                           dispatched: seq<seq<byte>>, handled: seq<seq<byte>>)

  const INITIAL := Server(0, Cleared(), false, 0, 0, Ready, Waiting, [], [])

  function Stored(s: Server, ch: byte): Server
    requires s.index < |s.buf|
  {
    s.(buf := s.buf[s.index := ch], index := s.index + 1)
  }

  /** The character handling of an idle preparser (ln_at_server.c:538-583). */
  ghost function Body(s: Server, ch: byte): Server
    requires |s.buf| == MAX && s.index < MAX
  {
    if IsPrint(ch) then Stored(s, ch).(pre := Epilogue(ch))
    else if ch == ESC then s.(index := 0, buf := Cleared(), pre := Ready)
    else if ch == BACKSPACE || ch == DELETE then
      if s.index > 0 then s.(index := s.index - 1, buf := s.buf[s.index - 1 := 0], pre := Ready) else s.(pre := Ready)
    else if IsEnd(ch) then
      var t := Stored(s, ch);
      t.(pre := if t.index > 2 && StrStrCrlf(t.buf) then SetBusy(ch) else Epilogue(ch))
    else if ch >= 0x80 then Stored(s, ch).(pre := Epilogue(ch))
    else s.(pre := Epilogue(ch))
  }

  /** One step of the preparser from a place inside a call. */
  ghost function PreStep(s: Server): Server
    requires |s.buf| == MAX && s.index <= MAX && s.pre != Ready && (s.pre.Read? && !s.pre.seenBusy ==> s.index < MAX)
  {
    match s.pre
    case Read(ch, seenBusy) => if seenBusy then s.(pre := Ready) else Body(s, ch)
    case SetBusy(ch) => s.(busy := true, pre := Release(ch), dispatched := s.dispatched + [s.buf[..s.index]])
    case Release(ch) => s.(sem := if s.sem < 2 then s.sem + 1 else s.sem, pre := Epilogue(ch))
    case Epilogue(ch) => s.(prevCh := ch, pre := if s.index >= MAX then Reset else Ready)
    case Reset => s.(prevCh := 0, index := 0, buf := Cleared(), pre := Ready)
    case Ready => s
  }

  datatype Event = Char(ch: byte) | Preparser | Take | Scribble(bytes: seq<byte>) | Clear | Finish

  /** The two tasks interleave one step at a time. While it parses, the parser may write anything into the buffer. */
  ghost predicate Next(s: Server, e: Event, s': Server) {
    match e
    case Char(ch) => s.pre == Ready && s' == s.(pre := Read(ch, s.busy))
    case Preparser =>
      && s.pre != Ready && |s.buf| == MAX && s.index <= MAX && (s.pre.Read? && !s.pre.seenBusy ==> s.index < MAX)
      && s' == PreStep(s)
    case Take =>
      && s.psr == Waiting && s.sem > 0 && s.index <= |s.buf|
      && s' == s.(sem := s.sem - 1, psr := Parsing, handled := s.handled + [s.buf[..s.index]])
    case Scribble(bytes) => s.psr == Parsing && |bytes| == MAX && s' == s.(buf := bytes)
    case Clear => s.psr == Parsing && s' == s.(index := 0, buf := Cleared(), psr := Finishing)
    case Finish => s.psr == Finishing && s' == s.(busy := false, psr := Waiting)
  }

  // --- what the buffer holds ---

  /** No NUL in the stored prefix, nothing but NULs after it. */
  predicate Terminated(b: seq<byte>, n: nat) {
    && |b| == MAX && n <= MAX
    && (forall k | 0 <= k < n :: b[k] != 0)
    && (forall k | n <= k < MAX :: b[k] == 0)
  }

  /** An unfinished line: "\r\n" can only be at the start, and after it there is no CR or LF. */
  ghost predicate Unfinished(p: seq<byte>) {
    && (forall i: nat | CrlfAt(p, i) :: i == 0)
    && (CrlfAt(p, 0) ==> forall k | 2 <= k < |p| :: !IsEnd(p[k]))
  }

  /** A dispatched line ends in its only "\r\n", ... */
  ghost predicate Proper(p: seq<byte>) { 2 < |p| && CrlfAt(p, |p| - 2) && forall i: nat | CrlfAt(p, i) :: i == |p| - 2 }

  /** ... or starts with the "\r\n" of an empty line and ends at the next CR or LF. */
  ghost predicate Leftover(p: seq<byte>) {
    2 < |p| && CrlfAt(p, 0) && IsEnd(p[|p| - 1]) && forall k | 2 <= k < |p| - 1 :: !IsEnd(p[k])
  }

  ghost predicate Line(p: seq<byte>) { Proper(p) || Leftover(p) }

  /** In a terminated buffer strstr sees exactly the stored prefix. */
  lemma {:induction false} StrStrPrefix(b: seq<byte>, n: nat)
    requires Terminated(b, n)
    ensures StrStrCrlf(b) <==> exists i: nat :: CrlfAt(b[..n], i)
  {
    if StrStrCrlf(b) {
      var i: nat :| CrlfAt(b, i);
      assert CrlfAt(b[..n], i);
    }
    if exists i: nat :: CrlfAt(b[..n], i) {
      var i: nat :| CrlfAt(b[..n], i);
      assert CrlfAt(b, i);
    }
  }

  lemma {:induction false} CrlfBefore(p: seq<byte>, ch: byte, i: nat)
    ensures CrlfAt(p + [ch], i) <==> CrlfAt(p, i) || (i + 1 == |p| && p[i] == CR && ch == LF)
  {}

  /** A character other than CR and LF leaves the line unfinished. */
  lemma {:induction false} PlainCharacter(p: seq<byte>, ch: byte)
    requires Unfinished(p) && !IsEnd(ch)
    ensures Unfinished(p + [ch])
  {
    forall i: nat | CrlfAt(p + [ch], i)
      ensures i == 0
    {
      CrlfBefore(p, ch, i);
    }
    CrlfBefore(p, ch, 0);
  }

  lemma {:induction false} ErasedCharacter(p: seq<byte>)
    requires Unfinished(p) && 0 < |p|
    ensures Unfinished(p[..|p| - 1])
  {
    var q := p[..|p| - 1];
    forall i: nat | CrlfAt(q, i)
      ensures i == 0
    {
      assert CrlfAt(p, i);
    }
    assert CrlfAt(q, 0) ==> CrlfAt(p, 0);
  }

  /** A CR or LF either leaves the line unfinished or completes it, as the length and strstr say. */
  lemma {:induction false} EndCharacter(p: seq<byte>, ch: byte)
    requires Unfinished(p) && IsEnd(ch)
    ensures var q := p + [ch];
            if |q| > 2 && exists i: nat :: CrlfAt(q, i) then Line(q) else Unfinished(q)
  {
    var q := p + [ch];
    forall i: nat {:trigger CrlfAt(q, i)}
      ensures CrlfAt(q, i) <==> CrlfAt(p, i) || (i + 1 == |p| && p[i] == CR && ch == LF)
    {
      CrlfBefore(p, ch, i);
    }
    if |q| > 2 && exists i: nat :: CrlfAt(q, i) {
      if CrlfAt(p, 0) {
        assert Leftover(q);
      } else {
        assert Proper(q);
      }
    }
  }

  // --- the invariant of every run without a full dispatched line ---

  ghost predicate ShortLines(s: Server) { forall i | 0 <= i < |s.dispatched| :: |s.dispatched[i]| < MAX }

  /** The buffer while the preparser owns it. */
  ghost predicate Editing(s: Server) { Terminated(s.buf, s.index) && Unfinished(s.buf[..s.index]) }

  /** The parser has been told, or is about to be, and has not yet taken the line. */
  ghost predicate Pending(s: Server) { s.pre.Release? || s.sem == 1 }

  ghost predicate Inv(s: Server) {
    && |s.buf| == MAX && s.index <= MAX
    // the semaphore count plus a parser in progress is 1 exactly when BUSY, but for the gap before the release
    && s.sem + (if s.psr == Waiting then 0 else 1) == (if s.busy && !s.pre.Release? then 1 else 0)
    && (s.pre.Release? ==> s.busy)
    // every dispatched line is a line, and is handled once, in order, as it was dispatched
    && (forall i | 0 <= i < |s.dispatched| :: Line(s.dispatched[i]))
    && s.dispatched == s.handled + (if Pending(s) then [s.buf[..s.index]] else [])
    // who owns the buffer
    && (s.psr == Finishing ==> s.index == 0 && s.buf == Cleared())
    && (s.busy ==> s.index < MAX)
    && (!s.busy && !s.pre.SetBusy? ==> Editing(s))
    && (s.pre.SetBusy? ==> !s.busy && Terminated(s.buf, s.index) && Line(s.buf[..s.index]))
    && (s.pre.Read? && !s.pre.seenBusy ==> !s.busy)
    && (!s.busy && (s.pre.Ready? || s.pre.Read?) ==> s.index < MAX)
    && (s.pre.Reset? ==> !s.busy)
  }

  lemma {:induction false} InitialInv()
    ensures Inv(INITIAL)
  {}

  lemma {:induction false} StoredPrefix(s: Server, ch: byte)
    requires |s.buf| == MAX && s.index < MAX
    ensures Stored(s, ch).buf[..s.index + 1] == s.buf[..s.index] + [ch]
    ensures Terminated(s.buf, s.index) && ch != 0 ==> Terminated(Stored(s, ch).buf, s.index + 1)
  {}

  lemma {:induction false} ClearedEditing()
    ensures Terminated(Cleared(), 0) && Unfinished(Cleared()[..0])
  {}

  lemma {:induction false} EraseEditing(s: Server)
    requires Editing(s) && 0 < s.index
    ensures Editing(s.(index := s.index - 1, buf := s.buf[s.index - 1 := 0]))
  {
    var t := s.(index := s.index - 1, buf := s.buf[s.index - 1 := 0]);
    ErasedCharacter(s.buf[..s.index]);
    assert t.buf[..t.index] == s.buf[..s.index][..s.index - 1];
  }

  /** The character handling keeps the editing state, or completes a line exactly when it goes on to set BUSY. */
  lemma {:induction false} BodyEdits(s: Server, ch: byte)
    requires |s.buf| == MAX && Editing(s) && s.index < MAX
    ensures var t := Body(s, ch);
            && |t.buf| == MAX && t.index <= MAX && Terminated(t.buf, t.index)
            && (if t.pre.SetBusy? then Line(t.buf[..t.index]) else Unfinished(t.buf[..t.index]))
            && (t.pre == Ready ==> t.index < MAX)
            && (t.pre == Ready || t.pre == Epilogue(ch) || t.pre == SetBusy(ch))
            && t == s.(buf := t.buf, index := t.index, pre := t.pre)
  {
    hide Unfinished, Line, Terminated, StrStrCrlf;
    ClearedEditing();
    StoredPrefix(s, ch);
    if IsPrint(ch) || ch >= 0x80 {
      PlainCharacter(s.buf[..s.index], ch);
    } else if ch == BACKSPACE || ch == DELETE {
      if s.index > 0 {
        EraseEditing(s);
      }
    } else if IsEnd(ch) {
      var t := Stored(s, ch);
      EndCharacter(s.buf[..s.index], ch);
      StrStrPrefix(t.buf, t.index);
    }
  }

  lemma {:induction false} PreparserStep(s: Server, s': Server)
    requires Inv(s) && Next(s, Preparser, s') && ShortLines(s')
    ensures Inv(s')
  {
    hide Body, Unfinished, Line, Terminated;
    ClearedEditing();
    match s.pre
    case Read(ch, seenBusy) =>
      if !seenBusy {
        BodyEdits(s, ch);
      }
    case SetBusy(ch) =>
      assert s'.dispatched[|s.dispatched|] == s.buf[..s.index];
    case Release(ch) =>
    case Epilogue(ch) =>
    case Reset =>
  }

  lemma {:induction false} ParserStep(s: Server, e: Event, s': Server)
    requires Inv(s) && Next(s, e, s') && e != Preparser
    ensures Inv(s')
  {
    hide Unfinished, Line, Terminated;
    ClearedEditing();
  }

  /** Every step of either task keeps the invariant, as long as no dispatched line fills the whole buffer. */
  lemma {:induction false} NextInv(s: Server, e: Event, s': Server)
    requires Inv(s) && Next(s, e, s') && ShortLines(s')
    ensures Inv(s')
  {
    if e == Preparser {
      PreparserStep(s, s');
    } else {
      ParserStep(s, e, s');
    }
  }

  // --- what the invariant gives at every state ---

  /** Mutual exclusion, one way: while BUSY no step of the preparser touches the buffer or the index. */
  lemma {:induction false} PreparserKeepsOff(s: Server, s': Server)
    requires Inv(s) && Next(s, Preparser, s') && s.busy
    ensures s'.buf == s.buf && s'.index == s.index
  {}

  /** Mutual exclusion, the other way: the parser task acts only while BUSY, after the release. */
  lemma {:induction false} ParserOnlyWhenBusy(s: Server, e: Event, s': Server)
    requires Inv(s) && Next(s, e, s') && (e == Take || e.Scribble? || e == Clear || e == Finish)
    ensures s.busy && !s.pre.Release?
  {}

  /** A released line is never stuck: the parser task has a step until the status is IDLE again. */
  lemma {:induction false} ParserEnabled(s: Server)
    requires Inv(s) && s.busy && !s.pre.Release?
    ensures exists e, s' :: (e == Take || e == Clear || e == Finish) && Next(s, e, s')
  {
    match s.psr
    case Waiting =>
      assert Next(s, Take, s.(sem := s.sem - 1, psr := Parsing, handled := s.handled + [s.buf[..s.index]]));
    case Parsing =>
      assert Next(s, Clear, s.(index := 0, buf := Cleared(), psr := Finishing));
    case Finishing =>
      assert Next(s, Finish, s.(busy := false, psr := Waiting));
  }

  // --- whole runs ---

  ghost predicate Run(states: seq<Server>, events: seq<Event>) {
    && |states| == |events| + 1 && states[0] == INITIAL
    && forall i | 0 <= i < |events| :: Next(states[i], events[i], states[i + 1])
  }

  lemma {:induction false} DispatchedGrows(s: Server, e: Event, s': Server)
    requires Next(s, e, s')
    ensures s.dispatched <= s'.dispatched
  {
    hide StrStrCrlf;
  }

  lemma {:induction false} DispatchedGrowsTo(states: seq<Server>, events: seq<Event>, k: nat)
    requires Run(states, events) && k <= |events|
    ensures states[k].dispatched <= states[|events|].dispatched
    decreases |events| - k
  {
    hide Next;
    if k < |events| {
      DispatchedGrowsTo(states, events, k + 1);
      DispatchedGrows(states[k], events[k], states[k + 1]);
    }
  }

  lemma {:induction false} RunInv(states: seq<Server>, events: seq<Event>, k: nat)
    requires Run(states, events) && k <= |events| && ShortLines(states[|events|])
    ensures Inv(states[k])
  {
    hide Next, Inv;
    if k == 0 {
      InitialInv();
    } else {
      RunInv(states, events, k - 1);
      DispatchedGrowsTo(states, events, k);
      NextInv(states[k - 1], events[k - 1], states[k]);
    }
  }

  /**
   * In every run in which no dispatched line fills the whole buffer, at every moment: the semaphore count plus a
   * parser in progress is 1 exactly when BUSY, but for the gap before the release; each dispatched line is a proper
   * line or an empty-line leftover; the lines handled so far are the lines dispatched so far, unchanged and
   * in order, but for at most one that is waiting while the status is BUSY; an idle buffer holds an unfinished line
   * and NULs behind it; and an idle preparser can store.
   */
  lemma {:induction false} EveryRun(states: seq<Server>, events: seq<Event>, k: nat)
    requires Run(states, events) && k <= |events| && ShortLines(states[|events|])
    ensures var s := states[k];
      && s.index <= |s.buf| == 512
      && s.sem + (if s.psr == Waiting then 0 else 1) == (if s.busy && !s.pre.Release? then 1 else 0)
      && (forall i | 0 <= i < |s.dispatched| :: Line(s.dispatched[i]))
      && (if s.busy && s.psr == Waiting then s.dispatched == s.handled + [s.buf[..s.index]]
          else s.dispatched == s.handled)
      && (!s.busy && !s.pre.SetBusy? ==> Editing(s))
      && (!s.busy && (s.pre.Ready? || s.pre.Read?) ==> s.index < MAX)
      && (s.pre.Read? && !s.pre.seenBusy ==> !s.busy)
  {
    hide Next;
    RunInv(states, events, k);
    assert states[k].handled + [] == states[k].handled;
  }

  // --- the characters of a line ---

  /** What one character does to a line. */
  function Edit(line: seq<byte>, ch: byte): seq<byte> {
    if ch == 0x1B then []
    else if ch == 0x08 || ch == 0x7F then (if line == [] then [] else line[..|line| - 1])
    else if 0x20 <= ch <= 0x7E || ch == 13 || ch == 10 || 0x80 <= ch then line + [ch]
    else line
  }

  /** A line is complete with a CR or LF, when it has more than two characters and a CR LF somewhere. */
  ghost predicate Complete(line: seq<byte>, ch: byte) {
    (ch == 13 || ch == 10) && 2 < |line| && exists i: nat :: i + 1 < |line| && line[i] == 13 && line[i + 1] == 10
  }

  /** The handling of a character is the edit of the stored line, and goes on to set BUSY when this completes it. */
  lemma {:induction false} BodyIsEdit(s: Server, ch: byte)
    requires |s.buf| == MAX && s.index < MAX && Terminated(s.buf, s.index)
    ensures var (t, line) := (Body(s, ch), Edit(s.buf[..s.index], ch));
            && t.index <= |t.buf| && t.buf[..t.index] == line
            && (t.pre.SetBusy? <==> Complete(line, ch))
  {
    hide StrStrCrlf, Terminated;
    var (t, line) := (Body(s, ch), Edit(s.buf[..s.index], ch));
    StoredPrefix(s, ch);
    if ch == 13 || ch == 10 {
      var u := Stored(s, ch);
      StrStrPrefix(u.buf, u.index);
      SameMark(line);
    } else if ch == 0x08 || ch == 0x7F {
      if s.index > 0 {
        assert t.buf[..t.index] == s.buf[..s.index][..s.index - 1];
      }
    }
  }

  lemma {:induction false} SameMark(line: seq<byte>)
    ensures (exists i: nat :: CrlfAt(line, i)) <==>
            exists i: nat :: i + 1 < |line| && line[i] == 13 && line[i + 1] == 10
  {
    if exists i: nat :: CrlfAt(line, i) {
      var i: nat :| CrlfAt(line, i);
      assert line[i] == 13;
    }
    if exists i: nat :: i + 1 < |line| && line[i] == 13 && line[i + 1] == 10 {
      var i: nat :| i + 1 < |line| && line[i] == 13 && line[i + 1] == 10;
      assert CrlfAt(line, i);
    }
  }

  /** What reaches the line: a character read while idle, and a wipe by the parser or for a full buffer. */
  datatype Input = Pressed(ch: byte) | Wiped

  /** A line editor on plain sequences: the line being edited, and the lines completed so far. */
  datatype Editor = Editor(line: seq<byte>, lines: seq<seq<byte>>)

  ghost function EditorStep(d: Editor, input: Input): Editor {
    match input
    case Wiped => Editor([], d.lines)
    case Pressed(ch) =>
      var line := Edit(d.line, ch);
      Editor(line, if Complete(line, ch) then d.lines + [line] else d.lines)
  }

  ghost function Edited(inputs: seq<Input>): Editor
    decreases |inputs|
  {
    if |inputs| == 0 then Editor([], []) else EditorStep(Edited(inputs[..|inputs| - 1]), inputs[|inputs| - 1])
  }

  /** The inputs a step takes. */
  function InputOf(s: Server, e: Event): (inputs: seq<Input>)
    ensures |inputs| <= 1
  {
    if e == Preparser && s.pre.Read? && !s.pre.seenBusy then [Pressed(s.pre.ch)]
    else if (e == Preparser && s.pre == Reset) || e == Clear then [Wiped]
    else []
  }

  /** The inputs of the first k steps of a run. */
  function Inputs(states: seq<Server>, events: seq<Event>, k: nat): seq<Input>
    requires |states| == |events| + 1 && k <= |events|
  {
    if k == 0 then [] else Inputs(states, events, k - 1) + InputOf(states[k - 1], events[k - 1])
  }

  /** The server holds what the editor holds: all lines, and the line unless the parser is working on its buffer. */
  ghost predicate Follows(s: Server, d: Editor) {
    && s.index <= |s.buf|
    && d.lines == s.dispatched + (if s.pre.SetBusy? then [s.buf[..s.index]] else [])
    && (s.psr != Parsing ==> s.buf[..s.index] == d.line)
  }

  lemma {:induction false} FollowsStep(s: Server, e: Event, s': Server, d: Editor)
    requires Inv(s) && Next(s, e, s') && Follows(s, d)
    ensures Follows(s', if InputOf(s, e) == [] then d else EditorStep(d, InputOf(s, e)[0]))
  {
    hide Body, Edit, Complete, Line, Unfinished, Terminated;
    if e == Preparser {
      if s.pre.Read? && !s.pre.seenBusy {
        BodyIsEdit(s, s.pre.ch);
        BodyEdits(s, s.pre.ch);
      } else if s.pre == Reset {
        assert Cleared()[..0] == [];
      }
    } else if e == Clear {
      assert Cleared()[..0] == [];
    }
  }

  lemma {:induction false} FollowsRun(states: seq<Server>, events: seq<Event>, k: nat)
    requires Run(states, events) && k <= |events| && ShortLines(states[|events|])
    ensures Follows(states[k], Edited(Inputs(states, events, k)))
  {
    hide Next, Inv, EditorStep, InputOf;
    if k > 0 {
      RunInv(states, events, k - 1);
      FollowsRun(states, events, k - 1);
      FollowsStep(states[k - 1], events[k - 1], states[k], Edited(Inputs(states, events, k - 1)));
      InputEdited(Inputs(states, events, k - 1), InputOf(states[k - 1], events[k - 1]));
    }
  }

  lemma {:induction false} InputEdited(inputs: seq<Input>, next: seq<Input>)
    requires |next| <= 1
    ensures Edited(inputs + next) == if next == [] then Edited(inputs) else EditorStep(Edited(inputs), next[0])
  {
    hide EditorStep;
    if next == [] {
      assert inputs + next == inputs;
    } else {
      assert (inputs + next)[..|inputs|] == inputs;
    }
  }

  /**
   * In every run of short lines: an idle server holds exactly the line the plain editor makes of the characters read
   * while idle; the lines dispatched are the lines it completed, in order, but for one about to be dispatched; and
   * every line handled by the parser is one of them, in order.
   */
  lemma {:induction false} TypedIsHandled(states: seq<Server>, events: seq<Event>, k: nat)
    requires Run(states, events) && k <= |events| && ShortLines(states[|events|])
    ensures var (s, d) := (states[k], Edited(Inputs(states, events, k)));
      && s.index <= |s.buf| && (!s.busy ==> s.buf[..s.index] == d.line)
      && d.lines == s.dispatched + (if s.pre.SetBusy? then [d.line] else [])
      && s.handled <= d.lines
  {
    hide Next;
    RunInv(states, events, k);
    FollowsRun(states, events, k);
    assert states[k].handled + [] == states[k].handled;
  }

  /** Without erase keys and wipes. */
  predicate PlainTyping(inputs: seq<Input>) {
    forall i | 0 <= i < |inputs| :: inputs[i].Pressed? && inputs[i].ch !in {0x1B, 0x08, 0x7F}
  }

  /** The characters that are kept. */
  function Storable(inputs: seq<Input>): seq<byte>
    requires PlainTyping(inputs)
  {
    if |inputs| == 0 then [] else
    var ch := inputs[|inputs| - 1].ch;
    Storable(inputs[..|inputs| - 1]) + (if 0x20 <= ch || ch == 13 || ch == 10 then [ch] else [])
  }

  /** After a wipe, or from the start, plain typing stores exactly the storable characters, in order. */
  lemma {:induction false} PlainTypingStored(before: seq<Input>, inputs: seq<Input>)
    requires PlainTyping(inputs) && (before == [] || before[|before| - 1] == Wiped)
    ensures Edited(before + inputs).line == Storable(inputs)
    decreases |inputs|
  {
    hide Complete;
    if |inputs| == 0 {
      assert before + inputs == before;
    } else {
      var n := |inputs| - 1;
      PlainTypingStored(before, inputs[..n]);
      assert (before + inputs)[..|before| + n] == before + inputs[..n];
    }
  }

  /** A line completed by plain typing is exactly the storable characters typed, in order. */
  lemma {:induction false} PlainLine(before: seq<Input>, inputs: seq<Input>)
    requires 0 < |inputs| && PlainTyping(inputs) && (before == [] || before[|before| - 1] == Wiped)
    requires Complete(Storable(inputs), inputs[|inputs| - 1].ch)
    ensures Edited(before + inputs).lines == Edited(before + inputs[..|inputs| - 1]).lines + [Storable(inputs)]
  {
    hide Complete, Storable;
    var n := |inputs| - 1;
    PlainTypingStored(before, inputs);
    assert (before + inputs)[..|before| + n] == before + inputs[..n];
  }

  // --- a dispatched line of 512 characters can be lost ---

  /** A stretch of a run from s that ends when the parser task next takes a line. */
  ghost predicate Delivery(s: Server, states: seq<Server>, events: seq<Event>) {
    && 0 < |events| && |states| == |events| + 1 && states[0] == s
    && (forall i | 0 <= i < |events| :: Next(states[i], events[i], states[i + 1]))
    && (forall i | 0 <= i < |events| :: events[i] == Take <==> i == |events| - 1)
  }

  /** The line of s is about to be dispatched, or is dispatched and waits untouched. */
  ghost predicate OnItsWay(s: Server, t: Server)
    requires s.index <= |s.buf|
  {
    && t.handled == s.handled
    && (t.pre.SetBusy? ==> t.dispatched == s.dispatched && t.buf == s.buf && t.index == s.index)
    && (!t.pre.SetBusy? ==> t.dispatched == s.dispatched + [s.buf[..s.index]] && t.busy && Pending(t))
  }

  lemma {:induction false} StaysOnItsWay(s: Server, t: Server, e: Event, t': Server)
    requires Inv(s) && s.index < MAX && ShortLines(s) && Inv(t) && OnItsWay(s, t) && Next(t, e, t') && e != Take
    ensures Inv(t') && OnItsWay(s, t')
  {
    hide Body, Line, Terminated, Unfinished;
    assert ShortLines(t');
    assert Inv(t') by {
      hide *;
      NextInv(t, e, t');
    }
  }

  lemma {:induction false} DeliveredIntact(s: Server, states: seq<Server>, events: seq<Event>, k: nat)
    requires Inv(s) && ShortLines(s) && s.pre.SetBusy? && s.index < MAX && Delivery(s, states, events) && k < |events|
    ensures Inv(states[k]) && OnItsWay(s, states[k])
  {
    hide Next, Inv;
    if k > 0 {
      DeliveredIntact(s, states, events, k - 1);
      StaysOnItsWay(s, states[k - 1], events[k - 1], states[k]);
    }
  }

  lemma {:induction false} TakenIntact(s: Server, states: seq<Server>, events: seq<Event>)
    requires Inv(s) && ShortLines(s) && s.pre.SetBusy? && s.index < MAX && Delivery(s, states, events)
    ensures states[|events|].handled == s.handled + [s.buf[..s.index]]
  {
    hide Line, Terminated, Unfinished, Body;
    DeliveredIntact(s, states, events, |events| - 1);
  }

  /** A full line: the preparser goes on to its reset, and the parser task then takes an empty line. */
  lemma {:induction false} FullLineOvertaken(s: Server)
    requires Inv(s) && s.pre.SetBusy? && s.index == MAX
    ensures exists states: seq<Server>, events: seq<Event> ::
              Delivery(s, states, events) && states[|events|].handled == s.handled + [[]]
  {
    var ch := s.pre.ch;
    var s1 := s.(busy := true, pre := Release(ch), dispatched := s.dispatched + [s.buf[..MAX]]);
    var s2 := s1.(sem := 1, pre := Epilogue(ch));
    var s3 := s2.(prevCh := ch, pre := Reset);
    var s4 := s3.(prevCh := 0, index := 0, buf := Cleared(), pre := Ready);
    var s5 := s4.(sem := 0, psr := Parsing, handled := s.handled + [s4.buf[..0]]);
    assert s4.buf[..0] == [];
    assert Delivery(s, [s, s1, s2, s3, s4, s5], [Preparser, Preparser, Preparser, Preparser, Take]);
  }

  /**
   * Exactly the lines shorter than the buffer are safe: whatever the two tasks do, the parser next takes the line
   * that is being dispatched, unless that line has all 512 characters; then some interleaving loses it.
   */
  lemma {:induction false} DeliveredExactly(s: Server)
    requires Inv(s) && ShortLines(s) && s.pre.SetBusy?
    ensures s.index < MAX <==>
            forall states: seq<Server>, events: seq<Event> | Delivery(s, states, events) ::
              states[|events|].handled == s.handled + [s.buf[..s.index]]
  {
    hide Next, ShortLines, Line, Terminated, Unfinished;
    if s.index < MAX {
      forall states: seq<Server>, events: seq<Event> | Delivery(s, states, events)
        ensures states[|events|].handled == s.handled + [s.buf[..s.index]]
      {
        TakenIntact(s, states, events);
      }
    } else {
      FullLineOvertaken(s);
      var states: seq<Server>, events: seq<Event> :|
        Delivery(s, states, events) && states[|events|].handled == s.handled + [[]];
      assert (s.handled + [[]])[|s.handled|] != (s.handled + [s.buf[..s.index]])[|s.handled|];
    }
  }

  ghost predicate Reachable(s: Server) { exists states, events :: Run(states, events) && states[|states| - 1] == s }

  lemma {:induction false} ReachNext(s: Server, e: Event, s': Server)
    requires Reachable(s) && Next(s, e, s')
    ensures Reachable(s')
  {
    hide Next;
    var states, events :| Run(states, events) && states[|states| - 1] == s;
    assert Run(states + [s'], events + [e]);
  }

  lemma {:induction false} ReachStart()
    ensures Reachable(INITIAL)
  {
    assert Run([INITIAL], []);
  }

  /** After k printable characters typed into an idle server. */
  function Typed(k: nat): (s: Server)
    requires k < MAX
  {
    Server(k, seq(MAX, i => if i < k then 65 else 0), false, if k == 0 then 0 else 65, 0, Ready, Waiting, [], [])
  }

  lemma {:induction false} TypedReachable(k: nat)
    requires k < MAX
    ensures Reachable(Typed(k))
    decreases k
  {
    if k == 0 {
      ReachStart();
      assert Typed(0) == INITIAL;
    } else {
      TypedReachable(k - 1);
      var s := Typed(k - 1);
      var s1 := s.(pre := Read(65, false));
      var s2 := Stored(s1, 65).(pre := Epilogue(65));
      var s3 := s2.(prevCh := 65, pre := Ready);
      ReachNext(s, Char(65), s1);
      ReachNext(s1, Preparser, s2);
      ReachNext(s2, Preparser, s3);
      assert s3.buf == Typed(k).buf;
    }
  }

  /** 510 characters, CR and LF: the preparser clears the full buffer before the parser has looked at it. */
  lemma {:induction false} FullLineLost()
    ensures exists s ::
              Reachable(s) && s.psr == Parsing && |s.dispatched| == 1 && |s.dispatched[0]| == MAX && s.handled == [[]]
  {
    hide Reachable;
    var s0 := Typed(MAX - 2);
    TypedReachable(MAX - 2);
    var s1 := s0.(pre := Read(CR, false));
    ReachNext(s0, Char(CR), s1);
    var s2 := Stored(s1, CR).(pre := Epilogue(CR));
    NoCrlfYet(s1);
    ReachNext(s1, Preparser, s2);
    var s3 := s2.(prevCh := CR, pre := Ready);
    ReachNext(s2, Preparser, s3);
    var s4 := s3.(pre := Read(LF, false));
    ReachNext(s3, Char(LF), s4);
    var s5 := Stored(s4, LF).(pre := SetBusy(LF));
    assert CrlfAt(Stored(s4, LF).buf, MAX - 2);
    ReachNext(s4, Preparser, s5);
    var s6 := s5.(busy := true, pre := Release(LF), dispatched := [s5.buf[..MAX]]);
    ReachNext(s5, Preparser, s6);
    var s7 := s6.(sem := 1, pre := Epilogue(LF));
    ReachNext(s6, Preparser, s7);
    var s8 := s7.(prevCh := LF, pre := Reset);
    ReachNext(s7, Preparser, s8);
    var s9 := s8.(prevCh := 0, index := 0, buf := Cleared(), pre := Ready);
    ReachNext(s8, Preparser, s9);
    var s10 := s9.(sem := 0, psr := Parsing, handled := [[]]);
    assert s9.handled + [s9.buf[..0]] == [[]];
    ReachNext(s9, Take, s10);
  }

  lemma {:induction false} NoCrlfYet(s: Server)
    requires s == Typed(MAX - 2).(pre := Read(CR, false))
    ensures !StrStrCrlf(Stored(s, CR).buf)
  {}

  // --- a full buffer can be searched beyond its end ---

  /** After a store the search ends inside the buffer if and only if a cell is left or the line holds the mark. */
  lemma {:induction false} SearchInsideExactly(b: seq<byte>, n: nat)
    requires Terminated(b, n)
    ensures StopsInside(b) <==> n < MAX || exists i: nat :: CrlfAt(b[..n], i)
  {
    if n < MAX {
      assert b[n] == 0;
    } else {
      assert b[..n] == b;
      if exists i: nat :: CrlfAt(b, i) {
        var i: nat :| CrlfAt(b, i);
        assert i < |b|;
      }
    }
  }

  /** 511 characters and CR: the buffer is full, holds no NUL and no mark, and strstr reads on behind it. */
  lemma {:induction false} SearchLeavesBuffer()
    ensures exists s ::
              Reachable(s) && s.pre == Read(CR, false) && s.index < |s.buf| == MAX && !StopsInside(Stored(s, CR).buf)
  {
    hide Reachable;
    var s := Typed(MAX - 1);
    TypedReachable(MAX - 1);
    var s' := s.(pre := Read(CR, false));
    ReachNext(s, Char(CR), s');
  }

  // --- the code of one call, with nothing interleaved ---

  ghost function Rank(p: Pre): nat {
    match p
    case Ready => 0
    case Reset => 1
    case Epilogue(_) => 2
    case Release(_) => 3
    case SetBusy(_) => 4
    case Read(_, _) => 5
  }

  ghost predicate Runnable(s: Server) {
    |s.buf| == MAX && s.index <= MAX && (s.pre.Read? && !s.pre.seenBusy ==> s.index < MAX)
  }

  /** The preparser's steps up to the end of the call. */
  ghost function ToReady(s: Server): Server
    requires Runnable(s)
    decreases Rank(s.pre)
  {
    if s.pre == Ready then s else ToReady(PreStep(s))
  }

  /** A whole call to ln_at_preparser. */
  ghost function Call(s: Server, ch: byte): Server
    requires s.pre == Ready && |s.buf| == MAX && s.index < MAX
  {
    ToReady(s.(pre := Read(ch, s.busy)))
  }

  /** A whole call remembers the character it handled, but for the keys that return early; a full buffer forgets it. */
  lemma {:induction false} CallRemembers(s: Server, ch: byte)
    requires s.pre == Ready && |s.buf| == MAX && s.index < MAX && Terminated(s.buf, s.index)
    ensures Call(s, ch).prevCh ==
              if s.busy || ch in {0x1B, 0x08, 0x7F} then s.prevCh
              else if |Edit(s.buf[..s.index], ch)| >= 512 then 0
              else ch
  {
    hide Body, Terminated, StrStrCrlf;
    var s0 := s.(pre := Read(ch, s.busy));
    OneStep(s0);
    if !s.busy {
      BodyIsEdit(s, ch);
      BodyPlaces(s0, ch);
      var t := Body(s0, ch);
      OneStep(t);
      if t.pre.SetBusy? {
        OneStep(PreStep(t));
        OneStep(PreStep(PreStep(t)));
        OneStep(PreStep(PreStep(PreStep(t))));
      } else if t.pre.Epilogue? {
        OneStep(PreStep(t));
      }
    }
  }

  lemma {:induction false} BodyPlaces(s: Server, ch: byte)
    requires |s.buf| == MAX && s.index < MAX
    ensures var t := Body(s, ch);
      && t.prevCh == s.prevCh && t.busy == s.busy && |t.buf| == MAX && t.index <= MAX
      && t.index == Body(s.(pre := Ready), ch).index
      && (if ch in {0x1B, 0x08, 0x7F} then t.pre == Ready else t.pre in {Epilogue(ch), SetBusy(ch)})
  {
    hide StrStrCrlf;
  }

  /** strstr(b, "\r\n") != NULL, and whether the search stays inside the array; where it leaves, nothing is found. */
  method StrStr(b: array<byte>) returns (found: bool, inside: bool)
    ensures found == StrStrCrlf(b[..]) && inside == StopsInside(b[..])
  {
    for i := 0 to b.Length
      invariant forall k: nat | k < i :: !CrlfAt(b[..], k) && b[k] != 0
    {
      if b[i] == 0 {
        assert b[..][i] == 0;
        return false, true;
      }
      if i + 1 < b.Length && b[i] == CR && b[i + 1] == LF {
        assert CrlfAt(b[..], i);
        return true, true;
      }
    }
    return false, false;
  }

  /** g_at_server with the static prev_ch and the parser semaphore; the ghost fields complete the model state. */
  class Handle {
    var index: nat
    const inBuff: array<byte>
    var busy: bool
    var prevCh: byte
    var sem: nat
    ghost var psr: Psr
    ghost var dispatched: seq<seq<byte>>
    ghost var handled: seq<seq<byte>>

    ghost function View(pre: Pre): Server
      reads this, inBuff
    {
      Server(index, inBuff[..], busy, prevCh, sem, pre, psr, dispatched, handled)
    }

    constructor ()
      ensures inBuff.Length == MAX && fresh(inBuff) && View(Ready) == INITIAL
    {
      inBuff := new byte[MAX](_ => 0);
      index, busy, prevCh, sem := 0, false, 0, 0;
      psr, dispatched, handled := Waiting, [], [];
      new;
      assert inBuff[..] == Cleared();
    }

    method ClearBuffer()
      requires inBuff.Length == MAX
      modifies this`index, inBuff
      ensures index == 0 && inBuff[..] == Cleared()
    {
      index := 0;
      for i := 0 to MAX
        invariant index == 0 && forall k | 0 <= k < i :: inBuff[k] == 0
      {
        inBuff[i] := 0;
      }
    }

    method Store(ch: byte)
      requires inBuff.Length == MAX && index < MAX
      modifies this`index, inBuff
      ensures index == old(index) + 1 && inBuff[..] == old(inBuff[..])[old(index) := ch]
    {
      inBuff[index] := ch;
      index := index + 1;
    }

    /** The branches on the character; the result is the place where the call goes on. */
    method HandleChar(ch: byte) returns (next: Pre)
      requires inBuff.Length == MAX && index < MAX
      modifies this`index, inBuff
      ensures View(next) == Body(old(View(Read(ch, false))), ch) && index <= MAX
      ensures next in {Ready, SetBusy(ch), Epilogue(ch)}
    {
      hide StrStrCrlf;
      if IsPrint(ch) {
        Store(ch);
      } else if ch == ESC {
        ClearBuffer();
        return Ready;
      } else if ch == BACKSPACE || ch == DELETE {
        if index > 0 {
          index := index - 1;
          inBuff[index] := 0;
        }
        return Ready;
      } else if ch == CR || ch == LF {
        Store(ch);
        var found, _ := StrStr(inBuff);
        if index > 2 && found {
          return SetBusy(ch);
        }
      } else if ch >= 0x80 {
        Store(ch);
      }
      return Epilogue(ch);
    }

    /** LN_AT_PARSER_BUSY_SET and ln_at_parser_notify */
    method Dispatch(ch: byte)
      requires inBuff.Length == MAX && index <= MAX
      modifies this`busy, this`sem, this`dispatched
      ensures View(Epilogue(ch)) == PreStep(PreStep(old(View(SetBusy(ch)))))
      ensures ToReady(old(View(SetBusy(ch)))) == ToReady(View(Epilogue(ch)))
    {
      hide Body;
      OneStep(View(SetBusy(ch)));
      busy := true;
      dispatched := dispatched + [inBuff[..index]];
      OneStep(View(Release(ch)));
      sem := if sem < 2 then sem + 1 else sem;
    }

    /** ln_at_preparser */
    method Preparser(ch: byte)
      requires inBuff.Length == MAX && index < MAX
      modifies this, inBuff
      ensures View(Ready) == Call(old(View(Ready)), ch)
    {
      hide Body;
      ghost var s := View(Read(ch, busy));
      OneStep(s);
      if busy {
        return;
      }
      var next := HandleChar(ch);
      OneStep(View(next));
      if next == Ready {
        return;
      }
      if next.SetBusy? {
        Dispatch(ch);
      }
      OneStep(View(Epilogue(ch)));
      prevCh := ch;
      if index >= MAX {
        OneStep(View(Reset));
        prevCh := 0;
        ClearBuffer();
      }
    }
  }

  lemma {:induction false} OneStep(s: Server)
    requires Runnable(s)
    ensures ToReady(s) == if s.pre == Ready then s else ToReady(PreStep(s))
    ensures s.pre != Ready && PreStep(s).pre == Ready ==> ToReady(s) == PreStep(s)
  {
    hide Body;
  }
}
