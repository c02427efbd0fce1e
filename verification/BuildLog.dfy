// The build log: the compile thread appends messages, the reply loop drains them. Both
// are interleaved one shared access at a time.
module BuildLog {
  import opened Options
  import opened Sequences

  type Message = string

  // ---- AppendFrame's line buffer ----

  /** The buffer after one call, and the message the call finishes. */
  function Framed(buffer: string, text: string): (string, Option<Message>) {
    if text != "" && text[|text| - 1] != '\n' then (buffer + text, None)
    else ("", Some(buffer + (if text == "" then "" else text[..|text| - 1])))
  }

  /** The messages a run of calls finishes, and what is left in the buffer. */
  function Frames(buffer: string, texts: seq<string>): (seq<Message>, string)
    decreases |texts|
  {
    if texts == [] then ([], buffer)
    else
      var (buffer', finished) := Framed(buffer, texts[0]);
      var (messages, rest) := Frames(buffer', texts[1..]);
      (if finished.Some? then [finished.value] + messages else messages, rest)
  }

  function Lines(messages: seq<Message>): string {
    if messages == [] then "" else messages[0] + "\n" + Lines(messages[1..])
  }

  function Joined(texts: seq<string>): string {
    if texts == [] then "" else texts[0] + Joined(texts[1..])
  }

  predicate NoEmptyText(texts: seq<string>) {
    forall i :: 0 <= i < |texts| ==> texts[i] != ""
  }

  lemma {:induction false} FramesKeepText(buffer: string, texts: seq<string>)
    ensures var (messages, rest) := Frames(buffer, texts);
      && |Lines(messages) + rest| >= |buffer + Joined(texts)|
      && (if NoEmptyText(texts) then Lines(messages) + rest == buffer + Joined(texts)
          else |Lines(messages) + rest| > |buffer + Joined(texts)|)
    decreases |texts|
  {
    if texts != [] {
      var text, more := texts[0], texts[1..];
      var (buffer', finished) := Framed(buffer, text);
      FramesKeepText(buffer', more);
      var (messages, rest) := Frames(buffer', more);
      assert NoEmptyText(texts) <==> text != "" && NoEmptyText(more);
      if finished.None? {
        Assoc(buffer, text, Joined(more));
      } else {
        assert ([finished.value] + messages)[1..] == messages;
        assert Lines([finished.value] + messages) == finished.value + "\n" + Lines(messages);
        Assoc(finished.value + "\n", Lines(messages), rest);
        if text != "" {
          assert finished.value + "\n" == buffer + text;
          Assoc(buffer, text, Joined(more));
        }
      }
    }
  }

  /** The messages, a newline after each, and the buffered rest are the text given,
      exactly when no call was given the empty text. */
  lemma FramesConserveText(texts: seq<string>)
    ensures var (messages, rest) := Frames("", texts);
      Lines(messages) + rest == Joined(texts) <==> NoEmptyText(texts)
  {
    FramesKeepText("", texts);
    assert "" + Joined(texts) == Joined(texts);
  }

  /** One call with the empty text makes a message of it. */
  lemma EmptyTextEndsLine()
    ensures Frames("", [""]) == ([""], "") && Lines([""]) == "\n" && Joined([""]) == ""
  {
    var none: seq<string> := [];
    assert [""][1..] == none && Frames("", none) == ([], "") && Lines([]) == "" && Joined(none) == "";
    var buffer: string := "";
    assert buffer + "" == "";
    assert Framed(buffer, "") == ("", Some(buffer + ""));
    assert Frames("", [""]) == ([""] + none, "");
    assert [""] + none == [""];
    assert "" + "\n" + "" == "\n";
  }

  // ---- the shared state and its two threads ----

  datatype Thread = CompileThread | ReplyThread

  datatype CompilePoint = Idle | AppendWaits(msg: Message) | AppendLocked(msg: Message) | AppendPushed | Done

  datatype ReplyPoint =
    | Head
    | Output | OutputWaits(line: Message) | OutputLocked(line: Message) | OutputPushed
    | CheckFirst | FirstWaits | FirstLocked | Draining | AtEnd | Cleared
    | Writing
    | Stopped

  datatype State = State(
    mutex: Option<Thread>,
    log: seq<Message>,
    iterator_: Option<nat>,
    buffer: string,
    compile: CompilePoint,
    reply: ReplyPoint,
    // The reply being filled, and the replies written to the client.
    current: seq<Message>,
    written: seq<Message>,
    // Every message pushed, in order.
    appended: seq<Message>)

  const INITIAL := State(None, [], None, "", Idle, Head, [], [], [])

  /** One access to shared state by one thread. */
  datatype Action =
    | CompileText(text: string) | CompileLock | CompilePush | CompileUnlock | CompileFinish
    | LoopTest | ProcessOutput(line: string) | OutputLock | OutputPush | OutputUnlock
    | TestEmpty | FirstLock | FirstRead | NextRead | Clear | ClearUnlock | Write

  predicate Enabled(s: State, a: Action) {
    match a
    case CompileText(_) | CompileFinish => s.compile == Idle
    case CompileLock => s.compile.AppendWaits? && s.mutex == None
    case CompilePush => s.compile.AppendLocked?
    case CompileUnlock => s.compile == AppendPushed
    case LoopTest => s.reply == Head
    case ProcessOutput(_) => s.reply == Output
    case OutputLock => s.reply.OutputWaits? && s.mutex == None
    case OutputPush => s.reply.OutputLocked?
    case OutputUnlock => s.reply == OutputPushed
    case TestEmpty => s.reply == CheckFirst
    case FirstLock => s.reply == FirstWaits && s.mutex == None
    // Reading through the iterator needs an element there.
    case FirstRead => s.reply == FirstLocked && s.log != []
    case NextRead => s.reply == Draining && s.iterator_.Some? && s.iterator_.value < |s.log|
    case Clear => s.reply == AtEnd
    case ClearUnlock => s.reply == Cleared
    case Write => s.reply == Writing
  }

  function Step(s: State, a: Action): State
    requires Enabled(s, a)
  {
    match a
    case CompileText(text) =>
      var (buffer, finished) := Framed(s.buffer, text);
      s.(buffer := buffer, compile := if finished.Some? then AppendWaits(finished.value) else Idle)
    case CompileLock => s.(mutex := Some(CompileThread), compile := AppendLocked(s.compile.msg))
    case CompilePush =>
      s.(log := s.log + [s.compile.msg], appended := s.appended + [s.compile.msg], compile := AppendPushed)
    case CompileUnlock => s.(mutex := None, compile := Idle)
    case CompileFinish => s.(compile := Done)
    case LoopTest => s.(reply := if s.compile == Done then Stopped else Output)
    case ProcessOutput(line) => s.(reply := if line == "" then CheckFirst else OutputWaits(line))
    case OutputLock => s.(mutex := Some(ReplyThread), reply := OutputLocked(s.reply.line))
    case OutputPush =>
      s.(log := s.log + [s.reply.line], appended := s.appended + [s.reply.line], reply := OutputPushed)
    case OutputUnlock => s.(mutex := None, reply := CheckFirst)
    case TestEmpty => s.(reply := if s.log == [] then Head else FirstWaits)
    case FirstLock => s.(mutex := Some(ReplyThread), reply := FirstLocked)
    case FirstRead => s.(iterator_ := Some(0), current := [s.log[0]], reply := Draining)
    case NextRead =>
      var next := s.iterator_.value + 1;
      if next == |s.log| then s.(iterator_ := Some(next), reply := AtEnd)
      else s.(iterator_ := Some(next), current := s.current + [s.log[next]])
    case Clear => s.(log := [], iterator_ := None, reply := Cleared)
    case ClearUnlock => s.(mutex := None, reply := Writing)
    case Write => s.(written := s.written + s.current, current := [], reply := Head)
  }

  predicate IsRun(actions: seq<Action>, s: State)
    decreases |actions|
  {
    actions == [] || (Enabled(s, actions[0]) && IsRun(actions[1..], Step(s, actions[0])))
  }

  function After(actions: seq<Action>, s: State): State
    requires IsRun(actions, s)
    decreases |actions|
  {
    if actions == [] then s else After(actions[1..], Step(s, actions[0]))
  }

  // ---- what every step keeps ----

  predicate CompileHolds(p: CompilePoint) {
    p.AppendLocked? || p == AppendPushed
  }

  predicate ReplyHolds(p: ReplyPoint) {
    p.OutputLocked? || p == OutputPushed || p == FirstLocked || p == Draining || p == AtEnd || p == Cleared
  }

  /** Messages out of the log for good: written, or in a reply whose drain has cleared it. */
  function Delivered(s: State): seq<Message> {
    s.written + (if s.reply == Cleared || s.reply == Writing then s.current else [])
  }

  ghost predicate Invariant(s: State) {
    && (s.mutex == Some(CompileThread) <==> CompileHolds(s.compile))
    && (s.mutex == Some(ReplyThread) <==> ReplyHolds(s.reply))
    && Delivered(s) + s.log == s.appended
    && (s.reply == FirstWaits || s.reply == FirstLocked ==> s.log != [])
    && (s.iterator_.Some? <==> s.reply == Draining || s.reply == AtEnd)
    && (s.reply == Draining ==> s.iterator_.value < |s.log| && s.current == s.log[..s.iterator_.value + 1])
    && (s.reply == AtEnd ==> s.iterator_.value == |s.log| && s.current == s.log)
    && (s.reply != Draining && s.reply != AtEnd && s.reply != Cleared && s.reply != Writing ==> s.current == [])
  }

  lemma StepKeepsInvariant(s: State, a: Action)
    requires Invariant(s) && Enabled(s, a)
    ensures Invariant(Step(s, a))
    ensures s.iterator_.Some? && Step(s, a).iterator_.Some? ==> Step(s, a).log == s.log
  {
    var t := Step(s, a);
    match a
    case CompilePush => Assoc(Delivered(s), s.log, [s.compile.msg]);
    case OutputPush => Assoc(Delivered(s), s.log, [s.reply.line]);
    case NextRead =>
      var next := s.iterator_.value + 1;
      if next < |s.log| {
        assert s.log[..next + 1] == s.log[..next] + [s.log[next]];
      } else {
        assert s.log[..next] == s.log;
      }
    case FirstRead => assert s.log[..1] == [s.log[0]];
    case Clear =>
      assert s.written + [] == s.written && Delivered(t) == s.written + s.current;
      assert Delivered(t) + [] == Delivered(t);
    case Write => assert Delivered(t) == t.written == Delivered(s);
    case _ =>
  }

  /** In every interleaving: what was delivered followed by what is pending is what was
      appended, the iterator points into the log, and at the head of the loop the reply
      thread does not hold the mutex. */
  lemma {:induction false} NothingLostOrReordered(actions: seq<Action>, s: State)
    requires Invariant(s)
    ensures IsRun(actions, s) ==> Invariant(After(actions, s))
    decreases |actions|
  {
    if actions != [] && IsRun(actions, s) {
      StepKeepsInvariant(s, actions[0]);
      NothingLostOrReordered(actions[1..], Step(s, actions[0]));
    }
  }

  lemma EveryRunDelivers(actions: seq<Action>)
    requires IsRun(actions, INITIAL)
    ensures var s := After(actions, INITIAL);
      && Delivered(s) + s.log == s.appended
      && (s.reply == Head ==> s.mutex != Some(ReplyThread) && s.written + s.log == s.appended)
      && (s.iterator_.Some? ==> s.iterator_.value <= |s.log|)
  {
    NothingLostOrReordered(actions, INITIAL);
    var s := After(actions, INITIAL);
    assert s.written + [] == s.written;
  }

  predicate OfReplyThread(a: Action) {
    !(a.CompileText? || a.CompileLock? || a.CompilePush? || a.CompileUnlock? || a.CompileFinish?)
  }

  ghost predicate CanStep(s: State, replyThread: bool) {
    exists a :: OfReplyThread(a) == replyThread && Enabled(s, a)
  }

  /** No deadlock: whoever holds the mutex can go on, and while nobody does every thread
      that has not finished can. In particular the iterator is never read past the log. */
  lemma NeverStuck(s: State)
    requires Invariant(s)
    ensures s.compile != Done && s.mutex != Some(ReplyThread) ==> CanStep(s, false)
    ensures s.reply != Stopped && s.mutex != Some(CompileThread) ==> CanStep(s, true)
  {
    assert s.mutex == None || s.mutex == Some(CompileThread) || s.mutex == Some(ReplyThread) by {
      if s.mutex.Some? { assert s.mutex.value == CompileThread || s.mutex.value == ReplyThread; }
    }
    var c := match s.compile
      case Idle => CompileFinish
      case AppendWaits(_) => CompileLock
      case AppendLocked(_) => CompilePush
      case _ => CompileUnlock;
    assert s.compile != Done && s.mutex != Some(ReplyThread) ==> !OfReplyThread(c) && Enabled(s, c);
    var r := match s.reply
      case Head => LoopTest
      case Output => ProcessOutput("")
      case OutputWaits(_) => OutputLock
      case OutputLocked(_) => OutputPush
      case OutputPushed => OutputUnlock
      case CheckFirst => TestEmpty
      case FirstWaits => FirstLock
      case FirstLocked => FirstRead
      case Draining => NextRead
      case AtEnd => Clear
      case Cleared => ClearUnlock
      case _ => Write;
    assert s.reply != Stopped && s.mutex != Some(CompileThread) ==> OfReplyThread(r) && Enabled(s, r);
  }

  // ---- the callbacks themselves ----

  lemma {:induction false} RunGrows(actions: seq<Action>, s: State, a: Action)
    requires IsRun(actions, s) && Enabled(After(actions, s), a)
    ensures IsRun(actions + [a], s) && After(actions + [a], s) == Step(After(actions, s), a)
    decreases |actions|
  {
    hide Enabled, Step;
    if actions == [] {
      assert [a][1..] == [] && [] + [a] == [a];
    } else {
      assert (actions + [a])[0] == actions[0] && (actions + [a])[1..] == actions[1..] + [a];
      RunGrows(actions[1..], Step(s, actions[0]), a);
    }
  }

  /** The callback object. The ghost fields hold the accesses its calls have made so far,
      and the protocol state they lead to. */
  class CallBack {
    var logMessages: seq<Message>
    var logIt: Option<nat>
    var logMutex: Option<Thread>
    var linestm: string
    ghost var actions: seq<Action>
    ghost var now: State

    /** What the calls did is a run of the protocol, and the fields are its shared state. */
    ghost predicate Valid()
      reads this
    {
      && Traced()
      && now.log == logMessages && now.iterator_ == logIt && now.mutex == logMutex && now.buffer == linestm
    }

    ghost predicate Traced()
      reads this
    {
      IsRun(actions, INITIAL) && now == After(actions, INITIAL) && Invariant(now)
    }

    constructor ()
      ensures Valid() && now == INITIAL
    {
      logMessages, logIt, logMutex, linestm := [], None, None, "";
      actions, now := [], INITIAL;
    }

    ghost method Take(a: Action)
      requires Traced() && Enabled(now, a)
      modifies this`actions, this`now
      ensures Traced() && now == Step(old(now), a)
    {
      hide Enabled, Step, Invariant;
      RunGrows(actions, INITIAL, a);
      StepKeepsInvariant(now, a);
      now := Step(now, a);
      actions := actions + [a];
    }

    /** A call of the compile thread while the mutex is free. */
    method AppendFrame(text: string)
      requires Valid() && now.compile == Idle && logMutex == None
      modifies this
      ensures Valid() && now.compile == Idle && now.reply == old(now.reply) && logMutex == None
      ensures var (buffer, finished) := Framed(old(linestm), text);
        linestm == buffer
        && logMessages == old(logMessages) + (if finished.Some? then [finished.value] else [])
      ensures now.appended == now.written + (if now.reply == Writing then now.current else []) + logMessages
    {
      hide IsRun, After;
      Take(CompileText(text));
      if text != "" && text[|text| - 1] != '\n' {
        linestm := linestm + text;
        return;
      }
      var msg := linestm + (if text == "" then "" else text[..|text| - 1]);
      linestm := "";
      logMutex := Some(CompileThread);
      Take(CompileLock);
      logMessages := logMessages + [msg];
      Take(CompilePush);
      logMutex := None;
      Take(CompileUnlock);
    }

    method ProcessOutput(line: string)
      requires Valid() && now.reply == Output && logMutex == None
      modifies this
      ensures Valid() && now.reply == CheckFirst && now.compile == old(now.compile) && logMutex == None
      ensures logMessages == old(logMessages) + (if line == "" then [] else [line])
      ensures now.written == old(now.written)
    {
      hide IsRun, After;
      Take(Action.ProcessOutput(line));
      if line == "" { return; }
      logMutex := Some(ReplyThread);
      Take(OutputLock);
      logMessages := logMessages + [line];
      Take(OutputPush);
      logMutex := None;
      Take(OutputUnlock);
    }

    /** Leaves the mutex locked unless the log is empty. */
    method GetFirstLogMessage() returns (msg: Message, end: bool)
      requires Valid() && now.reply == CheckFirst && logMutex == None
      modifies this
      ensures Valid() && logMessages == old(logMessages)
      ensures now.written == old(now.written) && now.compile == old(now.compile)
      ensures end <==> logMessages == []
      ensures end ==> logMutex == None && now.reply == Head
      ensures !end ==> msg == logMessages[0] && logIt == Some(0) && now.reply == Draining
      ensures !end ==> logMutex == Some(ReplyThread)
    {
      hide IsRun, After;
      Take(TestEmpty);
      if logMessages == [] { return "", true; }
      logMutex := Some(ReplyThread);
      Take(FirstLock);
      logIt := Some(0);
      Take(FirstRead);
      return logMessages[0], false;
    }

    method GetNextLogMessage() returns (msg: Message, end: bool)
      requires Valid() && now.reply == Draining
      modifies this
      ensures Valid() && logMessages == old(logMessages) && logIt == Some(old(logIt).value + 1)
      ensures now.written == old(now.written) && now.compile == old(now.compile)
      ensures end <==> logIt.value == |logMessages|
      ensures end ==> now.reply == AtEnd
      ensures !end ==> msg == logMessages[logIt.value] && now.reply == Draining
    {
      hide IsRun, After;
      Take(NextRead);
      logIt := Some(logIt.value + 1);
      if logIt.value == |logMessages| { return "", true; }
      return logMessages[logIt.value], false;
    }

    method ClearLogMessages()
      requires Valid() && now.reply == AtEnd
      modifies this
      ensures Valid() && logMessages == [] && logMutex == None && now.reply == Writing
      ensures now.written == old(now.written) && now.compile == old(now.compile) && now.current == old(logMessages)
    {
      hide IsRun, After;
      logMessages, logIt := [], None;
      Take(Clear);
      logMutex := None;
      Take(ClearUnlock);
    }

    /** The inner loop: the rest of the log follows the first message into the reply. */
    method Drain(first: Message) returns (reply: seq<Message>)
      requires Valid() && now.reply == Draining && logIt == Some(0) && logMessages != [] && first == logMessages[0]
      modifies this
      ensures Valid() && now.reply == Writing && logMutex == None && logMessages == []
      ensures reply == now.current == old(logMessages)
      ensures now.written == old(now.written)
    {
      hide IsRun, After, Enabled, Step, Invariant;
      ghost var log, written := logMessages, now.written;
      reply := [first];
      while true
        invariant Valid() && now.reply == Draining && logMessages == log && now.written == written
        invariant logIt.Some? && logIt.value < |log| && reply == log[..logIt.value + 1]
        decreases |log| - logIt.value
      {
        var msg, end := GetNextLogMessage();
        if end {
          ClearLogMessages();
          return;
        }
        reply := reply + [msg];
      }
    }

    /** One turn of the reply loop, uninterrupted: the reply holds the log and the new
        output line, none when both are empty. Nothing stays behind. */
    method ReplyTurn(line: string) returns (reply: seq<Message>)
      requires Valid() && now.reply == Head && now.compile != Done && logMutex == None
      modifies this
      ensures Valid() && now.reply == Head && logMutex == None && logMessages == []
      ensures reply == old(logMessages) + (if line == "" then [] else [line])
      ensures now.written == old(now.written) + reply
    {
      hide IsRun, After, Invariant;
      Take(LoopTest);
      ProcessOutput(line);
      var msg, end := GetFirstLogMessage();
      if end { return []; }
      reply := Drain(msg);
      Take(Write);
    }
  }
}
