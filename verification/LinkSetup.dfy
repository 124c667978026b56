/** Link setup: when a request is granted, and what the drivers concerned are told. */
module LinkSetup {
  import opened Basics
  import opened MediaGraph
  import opened LinkTables

  const EINVAL := 22
  const EBUSY := 16
  const ENOMEM := 12
  const ENOIOCTLCMD := 515

  /** A call of a driver callback and the flags it was given. */
  datatype Call = SourceSetup(flags: Flags) | SinkSetup(flags: Flags) | LinkNotify(enabled: bool)

  /** What the callbacks answer; None where the driver has no such callback. */
  datatype Answers = Answers(notify: Option<int>, source: Option<int>, sink: Option<int>)

  /** An entity without a link_setup operation answers -ENOIOCTLCMD. */
  function Answer(a: Option<int>): int {
    if a.Some? then a.value else -ENOIOCTLCMD
  }

  predicate Refused(a: Option<int>) {
    a.Some? && a.value < 0 && a.value != -ENOIOCTLCMD
  }

  /** The answer of the entity that refuses, the source being asked first. */
  function Refusal(answers: Answers): int {
    if Refused(answers.source) then answers.source.value
    else if Refused(answers.sink) then answers.sink.value
    else 0
  }

  /** The media device refuses that a link is enabled. */
  predicate Vetoed(flags: Flags, answers: Answers) {
    flags.enabled && answers.notify.Some? && answers.notify.value < 0
  }

  /** The request differs from l in the ENABLED bit only, and l may be switched now. */
  predicate Switchable(l: Link, flags: Flags, streamCount: seq<int>)
    requires 0 <= l.source.entity < |streamCount| && 0 <= l.sink.entity < |streamCount|
  {
    && flags == l.flags.(enabled := !l.flags.enabled) && !l.flags.immutable
    && (l.flags.dynamic || (streamCount[l.source.entity] == 0 && streamCount[l.sink.entity] == 0))
  }

  /** The checks of __media_entity_setup_link before any driver is asked: the value
      it returns at once, if it does. */
  function EarlyAnswer(l: Link, flags: Flags, streamCount: seq<int>): (r: Option<int>)
    requires 0 <= l.source.entity < |streamCount| && 0 <= l.sink.entity < |streamCount|
    ensures r == None <==> Switchable(l, flags, streamCount)
    ensures r == None <==>
            && flags == l.flags.(enabled := !l.flags.enabled) && !l.flags.immutable
            && (l.flags.dynamic || (streamCount[l.source.entity] == 0 && streamCount[l.sink.entity] == 0))
    ensures r == Some(0) <==> flags == l.flags
    ensures r == Some(-16) <==>
            && flags == l.flags.(enabled := !l.flags.enabled) && !l.flags.immutable && !l.flags.dynamic
            && (streamCount[l.source.entity] != 0 || streamCount[l.sink.entity] != 0)
    ensures r == Some(-22) <==>
            flags != l.flags && (l.flags.immutable || flags != l.flags.(enabled := !l.flags.enabled))
  {
    if l.flags.(enabled := false) != flags.(enabled := false) then Some(-EINVAL)
    else if l.flags.immutable then (if l.flags == flags then Some(0) else Some(-EINVAL))
    else if l.flags == flags then Some(0)
    else if !l.flags.dynamic && (streamCount[l.source.entity] != 0 || streamCount[l.sink.entity] != 0)
    then Some(-EBUSY)
    else None
  }

  /** The request may be granted and every driver asked agrees. */
  ghost predicate Granted(l: Link, flags: Flags, streamCount: seq<int>, answers: Answers)
    requires 0 <= l.source.entity < |streamCount| && 0 <= l.sink.entity < |streamCount|
  {
    && Switchable(l, flags, streamCount)
    && !Vetoed(flags, answers)
    && !Refused(answers.source) && !Refused(answers.sink)
  }

  /** A request is granted if and only if it is not answered at once and neither the media
      device nor one of the two entities refuses. */
  lemma {:induction false} GrantedExactly(l: Link, flags: Flags, streamCount: seq<int>, answers: Answers)
    requires 0 <= l.source.entity < |streamCount| && 0 <= l.sink.entity < |streamCount|
    ensures Granted(l, flags, streamCount, answers) <==>
            && EarlyAnswer(l, flags, streamCount) == None
            && (flags.enabled && answers.notify.Some? ==> answers.notify.value >= 0)
            && (answers.source.Some? ==> answers.source.value >= 0 || answers.source.value == -515)
            && (answers.sink.Some? ==> answers.sink.value >= 0 || answers.sink.value == -515)
  {
  }

  /** The flags the source entity was given last. */
  ghost function LastSource(calls: seq<Call>): Option<Flags> {
    if |calls| == 0 then None
    else if calls[|calls| - 1].SourceSetup? then Some(calls[|calls| - 1].flags)
    else LastSource(calls[..|calls| - 1])
  }

  /** The flags the sink entity was given last. */
  ghost function LastSink(calls: seq<Call>): Option<Flags> {
    if |calls| == 0 then None
    else if calls[|calls| - 1].SinkSetup? then Some(calls[|calls| - 1].flags)
    else LastSink(calls[..|calls| - 1])
  }

  /** What link_notify was told last. */
  ghost function LastNotify(calls: seq<Call>): Option<bool> {
    if |calls| == 0 then None
    else if calls[|calls| - 1].LinkNotify? then Some(calls[|calls| - 1].enabled)
    else LastNotify(calls[..|calls| - 1])
  }

  lemma {:induction false} LastConcat(a: seq<Call>, b: seq<Call>)
    ensures LastSource(a + b) == if LastSource(b).Some? then LastSource(b) else LastSource(a)
    ensures LastSink(a + b) == if LastSink(b).Some? then LastSink(b) else LastSink(a)
    ensures LastNotify(a + b) == if LastNotify(b).Some? then LastNotify(b) else LastNotify(a)
  {
    if |b| == 0 {
      assert a + b == a;
    } else {
      LastConcat(a, b[..|b| - 1]);
      assert (a + b)[..|a + b| - 1] == a + b[..|b| - 1];
    }
  }
}
