/** The asynchronous logger (muduo/base/AsyncLogging.cc over FixedBuffer of LogStream.h).

    A buffer is the text in it, a moved-from pointer is None.  append and the locked part of
    threadFunc are atomic steps under mutex_; the rest of a turn of threadFunc touches only the
    writer's own variables and the file, so it is one step too. */
module AsyncLogs {
  import opened Collections

  const MAX_BATCH := 25

  /** What reaches the log file: text, or the notice that buffers were dropped. */
  datatype Output = Data(text: string) | Dropped(count: int)

  datatype Pc = Top | Waiting | Writing

  datatype Log = Log(current: string, next: Option<string>, buffers: seq<string>,       // shared
                     pc: Pc, new1: Option<string>, new2: Option<string>, toWrite: seq<string>, file: seq<Output>,
                     appended: string, batches: seq<seq<string>>)                        // histories

  // ---------- the shared part ----------

  /** FixedBuffer::append: text that does not fit with a byte to spare is dropped. */
  function BufferAppend(capacity: nat, b: string, line: string): string {
    if capacity - |b| > |line| then b + line else b
  }

  function Append(capacity: nat, s: Log, line: string): Log {
    var s' :=
      if capacity - |s.current| > |line| then s.(current := BufferAppend(capacity, s.current, line))
      else
        var spare := if s.next.Some? then s.next.value else "";
        s.(buffers := s.buffers + [s.current], current := BufferAppend(capacity, spare, line), next := None);
    s'.(appended := s.appended + Kept(capacity, line))
  }

  /** Only lines shorter than a whole buffer can be kept. */
  function Kept(capacity: nat, line: string): string {
    if |line| < capacity then line else ""
  }

  /** The critical section of threadFunc after the wait, given its assertions at the loop top. */
  function Collect(s: Log): Log
    requires s.new1.Some?
  {
    var batch := s.buffers + [s.current];
    s.(buffers := [], current := s.new1.value, new1 := None, toWrite := batch,
       next := if s.next.None? then s.new2 else s.next, new2 := if s.next.None? then None else s.new2,
       pc := Writing, batches := s.batches + [batch])
  }

  // ---------- the writer's part ----------

  function WriteAll(bs: seq<string>): seq<Output> {
    if bs == [] then [] else WriteAll(bs[..|bs| - 1]) + [Data(bs[|bs| - 1])]
  }

  /** What one batch puts into the file. */
  function Emit(batch: seq<string>): seq<Output> {
    if |batch| > MAX_BATCH then [Dropped(|batch| - 2)] + WriteAll(batch[..2]) else WriteAll(batch)
  }

  function EmitAll(batches: seq<seq<string>>): seq<Output> {
    if batches == [] then [] else EmitAll(batches[..|batches| - 1]) + Emit(batches[|batches| - 1])
  }

  /** Whether the assertions that refilling the spares relies on hold. */
  predicate CanRefill(s: Log) {
    |s.toWrite| >= (if s.new1.None? then 1 else 0) + (if s.new2.None? then 1 else 0)
  }

  function Flush(s: Log): Log {
    s.(file := s.file + Emit(s.toWrite), toWrite := [],
       new1 := Some(if s.new1.None? then "" else s.new1.value), new2 := Some(if s.new2.None? then "" else s.new2.value),
       pc := Top)
  }

  // ---------- runs ----------

  datatype Action = AppendLine(line: string) | Wait | CollectBuffers | FlushBuffers

  predicate Enabled(s: Log, a: Action) {
    match a
    case AppendLine(_) => true
    case Wait => s.pc.Top? && s.buffers == []
    case CollectBuffers => (s.pc.Top? && s.buffers != []) || s.pc.Waiting?
    case FlushBuffers => s.pc.Writing?
  }

  /** The assertions of threadFunc. */
  predicate Asserts(s: Log, a: Action) {
    match a
    case AppendLine(_) => true
    case Wait => s.new1 == Some("") && s.new2 == Some("") && s.toWrite == []
    case CollectBuffers => s.new1 == Some("") && s.new2 == Some("") && s.toWrite == []
    case FlushBuffers => s.toWrite != [] && CanRefill(s)
  }

  function Next(capacity: nat, s: Log, a: Action): Log
    requires Enabled(s, a) && Asserts(s, a)
  {
    match a
    case AppendLine(line) => Append(capacity, s, line)
    case Wait => s.(pc := Waiting)
    case CollectBuffers => Collect(s)
    case FlushBuffers => Flush(s)
  }

  const START := Log("", Some(""), [], Top, Some(""), Some(""), [], [], "", [])

  function Flatten(batches: seq<seq<string>>): string {
    if batches == [] then "" else Flatten(batches[..|batches| - 1]) + Concat(batches[|batches| - 1])
  }

  predicate Inv(s: Log) {
    && Flatten(s.batches) + Concat(s.buffers) + s.current == s.appended
    && (s.next.None? ==> s.buffers != [])
    && (s.next.Some? ==> s.next.value == "")
    && (if s.pc.Writing? then
          && s.batches != [] && s.toWrite == s.batches[|s.batches| - 1] && s.toWrite != []
          && s.file == EmitAll(s.batches[..|s.batches| - 1])
          && s.new1.None? && (s.new2 == Some("") || (s.new2.None? && |s.toWrite| >= 2))
        else
          && s.toWrite == [] && s.file == EmitAll(s.batches)
          && s.new1 == Some("") && s.new2 == Some(""))
  }

  lemma AppendKeeps(capacity: nat, s: Log, line: string)
    requires Inv(s)
    ensures Inv(Append(capacity, s, line))
  {
    hide Flatten, Concat, EmitAll;
    var done, kept := Flatten(s.batches), Kept(capacity, line);
    if capacity - |s.current| > |line| {
      assert done + Concat(s.buffers) + (s.current + kept) == s.appended + kept;
    } else {
      ConcatSnoc(s.buffers, s.current);
      assert done + (Concat(s.buffers) + s.current) + kept == s.appended + kept;
    }
  }

  lemma CollectKeeps(s: Log)
    requires Inv(s) && Enabled(s, CollectBuffers)
    ensures Inv(Collect(s))
  {
    hide EmitAll, Flatten;
    var batch := s.buffers + [s.current];
    ConcatSnoc(s.buffers, s.current);
    assert (s.batches + [batch])[..|s.batches|] == s.batches;
    FlattenSnoc(s.batches, batch);
    assert Flatten(s.batches) + (Concat(s.buffers) + s.current) == s.appended;
  }

  lemma FlattenSnoc(batches: seq<seq<string>>, batch: seq<string>)
    ensures Flatten(batches + [batch]) == Flatten(batches) + Concat(batch)
  {
  }

  lemma StepKeeps(capacity: nat, s: Log, a: Action)
    requires Inv(s) && Enabled(s, a)
    ensures Asserts(s, a) && Inv(Next(capacity, s, a))
  {
    match a
    case AppendLine(line) => AppendKeeps(capacity, s, line);
    case Wait =>
    case CollectBuffers => CollectKeeps(s);
    case FlushBuffers =>
  }

  predicate IsRun(capacity: nat, states: seq<Log>, actions: seq<Action>) {
    && |states| == |actions| + 1 && states[0] == START
    && forall i :: 0 <= i < |actions| ==>
         Enabled(states[i], actions[i])
         && (Asserts(states[i], actions[i]) ==> states[i + 1] == Next(capacity, states[i], actions[i]))
  }

  /** In every interleaving of appends with the writer: no assertion of threadFunc fails; the
      collected batches, the queued buffers and the current one hold every line appended, in
      order; and the file holds the batches, each whole or, past 25 buffers, its first two. */
  lemma {:induction false} LinesAreConserved(capacity: nat, states: seq<Log>, actions: seq<Action>, k: nat)
    requires IsRun(capacity, states, actions) && k <= |actions|
    ensures Inv(states[k]) && (k < |actions| ==> Asserts(states[k], actions[k]))
    ensures Flatten(states[k].batches) + Concat(states[k].buffers) + states[k].current == states[k].appended
    ensures !states[k].pc.Writing? ==> states[k].file == EmitAll(states[k].batches)
  {
    if k > 0 {
      LinesAreConserved(capacity, states, actions, k - 1);
      StepKeeps(capacity, states[k - 1], actions[k - 1]);
      assert states[k] == states[(k - 1) + 1];
    }
    if k < |actions| {
      StepKeeps(capacity, states[k], actions[k]);
    }
  }

  /** The lines of the calls of append, without those no buffer can hold. */
  function Lines(capacity: nat, actions: seq<Action>): string {
    if actions == [] then ""
    else
      Lines(capacity, actions[..|actions| - 1]) + match actions[|actions| - 1] {
        case AppendLine(line) => if |line| < capacity then line else ""
        case _ => ""
      }
  }

  /** Every buffer holds its text: nothing is written past its end. */
  predicate Fits(capacity: nat, s: Log) {
    |s.current| <= capacity && forall i :: 0 <= i < |s.buffers| ==> |s.buffers[i]| <= capacity
  }

  /** A buffer is handed over exactly when the next line, with a byte to spare, does not fit behind its
      text; and the line then starts the next one. */
  lemma HandOverIff(capacity: nat, s: Log, line: string)
    requires Inv(s)
    ensures var s' := Append(capacity, s, line); var kept := if |line| < capacity then line else "";
            if |s.current| + |line| < capacity then s'.buffers == s.buffers && s'.current == s.current + kept
            else s'.buffers == s.buffers + [s.current] && s'.current == kept && s'.next == None
  {
    hide Flatten, Concat, EmitAll;
  }

  lemma AppendStep(capacity: nat, s: Log, a: Action)
    requires Inv(s) && Enabled(s, a) && Asserts(s, a) && Fits(capacity, s)
    ensures Next(capacity, s, a).appended
         == s.appended + if a.AppendLine? && |a.line| < capacity then a.line else ""
    ensures Fits(capacity, Next(capacity, s, a))
  {
    hide Inv;
    if a.AppendLine? {
      HandOverIff(capacity, s, a.line);
    }
  }

  /** Over every run `appended` is the text of the calls of append, in order, and no buffer overflows. */
  lemma {:induction false} AppendedInOrder(capacity: nat, states: seq<Log>, actions: seq<Action>, k: nat)
    requires IsRun(capacity, states, actions) && k <= |actions|
    ensures states[k].appended == Lines(capacity, actions[..k]) && Fits(capacity, states[k])
  {
    if k > 0 {
      hide Enabled, Asserts, Next, Inv, Fits;
      assert states[k] == states[(k - 1) + 1] && actions[..k][..k - 1] == actions[..k - 1];
      AppendedInOrder(capacity, states, actions, k - 1);
      LinesAreConserved(capacity, states, actions, k - 1);
      AppendStep(capacity, states[k - 1], actions[k - 1]);
    }
  }

  function TextOf(out: seq<Output>): string {
    if out == [] then ""
    else TextOf(out[..|out| - 1]) + match out[|out| - 1] { case Data(t) => t case Dropped(_) => "" }
  }

  lemma {:induction false} WriteAllText(bs: seq<string>)
    ensures TextOf(WriteAll(bs)) == Concat(bs)
  {
    if bs != [] {
      WriteAllText(bs[..|bs| - 1]);
    }
  }

  lemma TextSnoc(out: seq<Output>, last: Output)
    ensures TextOf(out + [last]) == TextOf(out) + match last { case Data(t) => t case Dropped(_) => "" }
  {
    assert (out + [last])[..|out|] == out;
  }

  lemma {:induction false} TextAdds(a: seq<Output>, b: seq<Output>)
    ensures TextOf(a + b) == TextOf(a) + TextOf(b)
    decreases |b|
  {
    if b == [] {
      assert a + b == a;
    } else {
      hide TextOf;
      var front, last := b[..|b| - 1], b[|b| - 1];
      TextAdds(a, front);
      TextSnoc(a + front, last);
      TextSnoc(front, last);
      assert a + b == a + front + [last] && b == front + [last];
    }
  }

  lemma NoticeText(n: int, out: seq<Output>)
    ensures TextOf([Dropped(n)] + out) == TextOf(out)
  {
    TextAdds([Dropped(n)], out);
    assert [Dropped(n)][..0] == [];
  }

  /** A batch of more than 25 buffers loses exactly its text past the first two, and the notice says how
      many buffers that were. */
  lemma LargeBatch(batch: seq<string>)
    requires |batch| > MAX_BATCH
    ensures TextOf(Emit(batch)) + Concat(batch[2..]) == Concat(batch) && Emit(batch)[0] == Dropped(|batch[2..]|)
  {
    hide Concat, WriteAll, TextOf;
    WriteAllText(batch[..2]);
    NoticeText(|batch| - 2, WriteAll(batch[..2]));
    ConcatSplit(batch, 2);
  }

  /** What the file keeps of a batch. */
  function Survives(batch: seq<string>): string {
    if |batch| > MAX_BATCH then Concat(batch[..2]) else Concat(batch)
  }

  /** What it loses. */
  function Lost(batch: seq<string>): string {
    if |batch| > MAX_BATCH then Concat(batch[2..]) else ""
  }

  function SurvivesAll(batches: seq<seq<string>>): string {
    if batches == [] then "" else SurvivesAll(batches[..|batches| - 1]) + Survives(batches[|batches| - 1])
  }

  lemma EmitText(batch: seq<string>)
    ensures TextOf(Emit(batch)) == Survives(batch) && Survives(batch) + Lost(batch) == Concat(batch)
  {
    hide Concat, WriteAll, TextOf;
    if |batch| > MAX_BATCH {
      LargeBatch(batch);
      WriteAllText(batch[..2]);
      NoticeText(|batch| - 2, WriteAll(batch[..2]));
    } else {
      WriteAllText(batch);
    }
  }

  /** The text in the file is, batch by batch, all of a small one and two buffers of a large one. */
  lemma {:induction false} EmitAllText(batches: seq<seq<string>>)
    ensures TextOf(EmitAll(batches)) == SurvivesAll(batches)
  {
    hide Concat, Emit, Survives, TextOf;
    if batches != [] {
      var n := |batches| - 1;
      EmitAllText(batches[..n]);
      TextAdds(EmitAll(batches[..n]), Emit(batches[n]));
      EmitText(batches[n]);
    } else {
      assert TextOf([]) == "" by { NoText(); }
    }
  }

  lemma NoText()
    ensures TextOf([]) == ""
  {
  }

  ghost predicate NothingLost(batches: seq<seq<string>>) {
    forall i :: 0 <= i < |batches| ==> Lost(batches[i]) == ""
  }

  lemma {:induction false} SurvivesAllIff(batches: seq<seq<string>>)
    ensures |SurvivesAll(batches)| <= |Flatten(batches)|
    ensures NothingLost(batches) ==> SurvivesAll(batches) == Flatten(batches)
    ensures !NothingLost(batches) ==> |SurvivesAll(batches)| < |Flatten(batches)|
  {
    hide Concat, Survives, Lost;
    if batches != [] {
      var n := |batches| - 1;
      var before, last := batches[..n], batches[n];
      SurvivesAllIff(before);
      EmitText(last);
      assert |Survives(last)| + |Lost(last)| == |Concat(last)|;
      assert NothingLost(batches) <==> NothingLost(before) && Lost(last) == "" by { assert batches == before + [last]; }
      if Lost(last) == "" {
        assert Survives(last) + "" == Survives(last);
      }
    }
  }

  /** The file's text is everything collected exactly if every dropped buffer was empty. */
  lemma NothingDroppedIff(batches: seq<seq<string>>)
    ensures TextOf(EmitAll(batches)) == Flatten(batches) <==> NothingLost(batches)
  {
    EmitAllText(batches);
    SurvivesAllIff(batches);
  }

  /** The batches whose text has reached the file. */
  function Written(s: Log): seq<seq<string>> {
    if s.pc.Writing? && s.batches != [] then s.batches[..|s.batches| - 1] else s.batches
  }

  lemma InvText(s: Log)
    requires Inv(s)
    ensures TextOf(s.file) == SurvivesAll(Written(s))
    ensures Flatten(Written(s)) + Concat(s.toWrite) + Concat(s.buffers) + s.current == s.appended
  {
    hide Concat, TextOf, EmitAll, SurvivesAll;
    EmitAllText(Written(s));
    assert Concat(s.toWrite) == "" || s.pc.Writing? by { NoParts(); }
    assert Flatten(s.batches) == Flatten(Written(s)) + Concat(s.toWrite);
  }

  lemma NoParts()
    ensures Concat<char>([]) == ""
  {
  }

  /** The text of the log over every run: the file holds every small batch and the first two buffers
      of every large one, and it is, with what is still in memory, everything appended if and only
      if the dropped buffers were empty; in particular if no batch exceeded 25 buffers. */
  lemma TextIsConservedIff(capacity: nat, states: seq<Log>, actions: seq<Action>, k: nat)
    requires IsRun(capacity, states, actions) && k <= |actions|
    ensures var s := states[k];
            && TextOf(s.file) == SurvivesAll(Written(s))
            && Flatten(Written(s)) + Concat(s.toWrite) + Concat(s.buffers) + s.current == s.appended
            && (TextOf(s.file) + Concat(s.toWrite) + Concat(s.buffers) + s.current == s.appended <==>
                  NothingLost(Written(s)))
            && ((forall i :: 0 <= i < |Written(s)| ==> |Written(s)[i]| <= MAX_BATCH) ==> NothingLost(Written(s)))
  {
    hide Concat, TextOf, Inv, SurvivesAll, Flatten, Written;
    var s := states[k];
    LinesAreConserved(capacity, states, actions, k);
    InvText(s);
    SurvivesAllIff(Written(s));
    SameTail(TextOf(s.file), Flatten(Written(s)), Concat(s.toWrite) + Concat(s.buffers) + s.current);
    assert TextOf(s.file) + Concat(s.toWrite) + Concat(s.buffers) + s.current
        == TextOf(s.file) + (Concat(s.toWrite) + Concat(s.buffers) + s.current);
    assert Flatten(Written(s)) + Concat(s.toWrite) + Concat(s.buffers) + s.current
        == Flatten(Written(s)) + (Concat(s.toWrite) + Concat(s.buffers) + s.current);
  }

  lemma SameTail(a: string, b: string, tail: string)
    ensures a + tail == b + tail <==> a == b
  {
    if a + tail == b + tail {
      assert |a| == |b| && (a + tail)[..|a|] == (b + tail)[..|b|];
    }
  }

  // ---------- the class ----------

  class AsyncLogging {
    const capacity: nat
    var currentBuffer: string
    var nextBuffer: Option<string>
    var buffers: seq<string>
    var newBuffer1: Option<string>
    var newBuffer2: Option<string>
    var buffersToWrite: seq<string>
    var output: seq<Output>
    ghost var pc: Pc
    ghost var appended: string
    ghost var batches: seq<seq<string>>

    ghost function Value(): Log
      reads this
    {
      Log(currentBuffer, nextBuffer, buffers, pc, newBuffer1, newBuffer2, buffersToWrite, output, appended, batches)
    }

    constructor (capacity: nat)
      ensures Value() == START && this.capacity == capacity
    {
      this.capacity := capacity;
      currentBuffer, nextBuffer, buffers := "", Some(""), [];
      newBuffer1, newBuffer2, buffersToWrite, output := Some(""), Some(""), [], [];
      pc, appended, batches := Top, "", [];
    }

    method AppendLine(line: string)
      modifies this
      ensures Value() == Append(capacity, old(Value()), line)
    {
      if capacity - |currentBuffer| > |line| {
        currentBuffer := currentBuffer + line;
      } else {
        buffers := buffers + [currentBuffer];
        if nextBuffer.Some? {
          currentBuffer, nextBuffer := nextBuffer.value, None;
        } else {
          currentBuffer := "";
        }
        if capacity - |currentBuffer| > |line| {
          currentBuffer := currentBuffer + line;
        }
      }
      appended := appended + Kept(capacity, line);
    }

    method CollectBuffers()
      requires newBuffer1.Some?
      modifies this
      ensures Value() == Collect(old(Value()))
    {
      buffers := buffers + [currentBuffer];
      currentBuffer, newBuffer1 := newBuffer1.value, None;
      buffersToWrite, buffers := buffers, [];
      if nextBuffer.None? {
        nextBuffer, newBuffer2 := newBuffer2, None;
      }
      pc, batches := Writing, batches + [buffersToWrite];
    }

    /** From the size check to the end of the writing loop. */
    method WriteBuffers()
      modifies this`output, this`buffersToWrite
      ensures output == old(output) + Emit(old(buffersToWrite))
      ensures buffersToWrite == if |old(buffersToWrite)| > MAX_BATCH then old(buffersToWrite)[..2]
                                 else old(buffersToWrite)
    {
      if |buffersToWrite| > MAX_BATCH {
        output := output + [Dropped(|buffersToWrite| - 2)];
        buffersToWrite := buffersToWrite[..2];
      }
      ghost var written := output;
      var i := 0;
      while i < |buffersToWrite|
        invariant 0 <= i <= |buffersToWrite| && output == written + WriteAll(buffersToWrite[..i])
        modifies this`output
      {
        assert buffersToWrite[..i + 1][..i] == buffersToWrite[..i];
        output := output + [Data(buffersToWrite[i])];
        i := i + 1;
      }
      assert buffersToWrite[..i] == buffersToWrite;
    }

    method FlushBuffers()
      requires Inv(Value()) && pc.Writing?
      modifies this
      ensures Value() == Flush(old(Value()))
    {
      hide Emit, EmitAll, Flatten, Concat;
      WriteBuffers();
      if |buffersToWrite| > 2 {
        buffersToWrite := buffersToWrite[..2];
      }
      if newBuffer1.None? {
        assert buffersToWrite != [];
        newBuffer1, buffersToWrite := Some(""), buffersToWrite[..|buffersToWrite| - 1];
      }
      if newBuffer2.None? {
        assert buffersToWrite != [];
        newBuffer2, buffersToWrite := Some(""), buffersToWrite[..|buffersToWrite| - 1];
      }
      buffersToWrite := [];
      pc := Top;
    }
  }
}
