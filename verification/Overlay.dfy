/** Who may use the SAA7146's video DMA channels: what preview, capture and VBI are
    promised, as a state machine. */
module Overlay {
  import opened Basics

  const EBUSY := 16
  const EAGAIN := 11
  const EINVAL := 22

  /** The channels: picture, clipping or second plane, and VBI or third plane. */
  datatype Dma = Dma1 | Dma2 | Dma3

  /** A video handle: whether its capture format is planar and whether it has overlay data. */
  datatype Handle = Handle(planar: bool, ready: bool)

  /** What the video channel does. A capture remembers the overlay it suspended. */
  datatype Mode = Idle | Preview(fh: int) | Capture(fh: int, suspended: Option<int>)

  datatype State = State(video: map<int, Handle>, vbi: set<int>, mode: Mode)

  // -------------------------------------------------------- ownership

  function Needs(planar: bool): set<Dma> {
    if planar then {Dma1, Dma2, Dma3} else {Dma1}
  }

  predicate Planar(s: State, h: int) {
    h in s.video && s.video[h].planar
  }

  /** The channels a handle owns. */
  function Held(s: State, h: int): set<Dma> {
    if h in s.vbi then {Dma3}
    else match s.mode
      case Idle => {}
      case Preview(f) => if f == h then {Dma1, Dma2} else {}
      case Capture(f, _) => if f == h then Needs(Planar(s, f)) else {}
  }

  predicate PlanarCapture(s: State) {
    s.mode.Capture? && Planar(s, s.mode.fh)
  }

  predicate Used(s: State, d: Dma) {
    match d
    case Dma1 => !s.mode.Idle?
    case Dma2 => s.mode.Preview? || PlanarCapture(s)
    case Dma3 => s.vbi != {} || PlanarCapture(s)
  }

  /** The channels in use. */
  function InUse(s: State): set<Dma> {
    set d: Dma | Used(s, d)
  }

  predicate Ready(s: State, h: int) {
    h in s.video && s.video[h].ready
  }

  /** What every run keeps. */
  ghost predicate Sound(s: State) {
    && s.video.Keys !! s.vbi
    && (forall a, b :: a in s.vbi && b in s.vbi ==> a == b)
    && (PlanarCapture(s) ==> s.vbi == {})
    && (match s.mode
        case Idle => true
        case Preview(f) => Ready(s, f)
        case Capture(f, suspended) => f in s.video && (suspended.Some? ==> Ready(s, suspended.value)))
  }

  /** The channels in use are those the handles own, and no two handles own one. */
  lemma {:induction false} Exclusive(s: State)
    requires Sound(s)
    ensures forall d :: d in InUse(s) <==> exists h :: (h in s.video || h in s.vbi) && d in Held(s, h)
    ensures forall a, b :: a != b ==> Held(s, a) !! Held(s, b)
  {
    forall d ensures d in InUse(s) <==> exists h :: (h in s.video || h in s.vbi) && d in Held(s, h) {
      if d in InUse(s) {
        if h :| d == Dma3 && h in s.vbi {
          assert d in Held(s, h);
        } else {
          if d == Dma3 {
            assert forall h :: h in s.vbi ==> d != Dma3;
            assert s.vbi == {};
          }
          assert d in Held(s, s.mode.fh);
        }
      }
    }
  }

  /** Only the handle in charge of the video channel owns the first DMA channel. */
  lemma {:induction false} FirstChannel(s: State, h: int)
    requires Sound(s)
    ensures Dma1 in Held(s, h) <==> (s.mode.Preview? || s.mode.Capture?) && s.mode.fh == h
  {
  }

  // ------------------------------------------------------------ the calls

  datatype Op =
    | Open(fh: int)
    | Close(fh: int)
    | VbiOpen(fh: int)
    | VbiClose(fh: int)
    | Start(fh: int)
    | Stop(fh: int)
    | Begin(fh: int)
    | End(fh: int)
    | SetCaptureFormat(fh: int, planar: bool, valid: bool)
    | SetOverlayFormat(fh: int, valid: bool)
    | SetStandard(found: bool)

  /** Which calls a run may make: on open handles, and not closing a handle whose
      overlay is suspended. */
  predicate Callable(s: State, op: Op) {
    match op
    case Open(h) => h !in s.video && h !in s.vbi
    case VbiOpen(h) => h !in s.video && h !in s.vbi
    case VbiClose(h) => h in s.vbi
    case Close(h) => h in s.video && !(s.mode.Capture? && s.mode.suspended == Some(h))
    case SetStandard(_) => true
    case _ => op.fh in s.video
  }

  /** Ending a capture brings back what it suspended. */
  function Resumed(suspended: Option<int>): Mode {
    if suspended.Some? then Preview(suspended.value) else Idle
  }

  /** Whether the channels a capture by h needs can be had once a preview is suspended. */
  predicate Grantable(s: State, h: int) {
    Planar(s, h) ==> s.vbi == {}
  }

  function Suspended(mode: Mode): Option<int> {
    if mode.Preview? then Some(mode.fh) else None
  }

  predicate Captures(s: State, h: int) {
    s.mode.Capture? && s.mode.fh == h
  }

  /** The answer to a call. */
  function Answer(s: State, op: Op): int {
    match op
    case VbiOpen(_) => if Dma3 in InUse(s) then -EBUSY else 0
    case Start(h) =>
      if !Ready(s, h) then -EAGAIN else if s.mode == Idle || s.mode == Preview(h) then 0 else -EBUSY
    case Stop(h) => if Captures(s, h) || (s.mode.Preview? && s.mode.fh != h) then -EBUSY else 0
    case Begin(h) =>
      if s.mode.Capture? then (if s.mode.fh == h then 0 else -EBUSY) else if Grantable(s, h) then 0 else -EBUSY
    case End(h) => if s.mode.Capture? && s.mode.fh != h then -EBUSY else 0
    case SetCaptureFormat(h, _, valid) => if Captures(s, h) then -EBUSY else if valid then 0 else -EINVAL
    case SetOverlayFormat(_, valid) => if valid then 0 else -EINVAL
    case SetStandard(found) => if s.mode.Capture? then -EBUSY else if found then 0 else -EINVAL
    case _ => 0
  }

  function NextMode(s: State, op: Op): Mode {
    match op
    case Start(h) => if Ready(s, h) && s.mode == Idle then Preview(h) else s.mode
    case Stop(h) => if s.mode == Preview(h) then Idle else s.mode
    case Begin(h) =>
      if !s.mode.Capture? && Grantable(s, h) then Capture(h, Suspended(s.mode)) else s.mode
    case End(h) => if Captures(s, h) then Resumed(s.mode.suspended) else s.mode
    case Close(h) =>
      if Captures(s, h) then Resumed(s.mode.suspended) else if s.mode == Preview(h) then Idle else s.mode
    case _ => s.mode
  }

  function NextVideo(s: State, op: Op): map<int, Handle> {
    match op
    case Open(h) => s.video[h := Handle(false, false)]
    case Close(h) => s.video - {h}
    case SetCaptureFormat(h, planar, _) =>
      if Answer(s, op) == 0 && h in s.video then s.video[h := s.video[h].(planar := planar)] else s.video
    case SetOverlayFormat(h, valid) =>
      if valid && h in s.video then s.video[h := s.video[h].(ready := true)] else s.video
    case _ => s.video
  }

  function NextVbi(s: State, op: Op): set<int> {
    match op
    case VbiOpen(h) => if Answer(s, op) == 0 then s.vbi + {h} else s.vbi
    case VbiClose(h) => s.vbi - {h}
    case _ => s.vbi
  }

  function Next(s: State, op: Op): State {
    State(NextVideo(s, op), NextVbi(s, op), NextMode(s, op))
  }

  lemma {:induction false} NextSound(s: State, op: Op)
    requires Sound(s) && Callable(s, op)
    ensures Sound(Next(s, op))
  {
  }

  /** Closing a handle leaves a sound state exactly if its preview is not suspended: else
      the driver is left with a pointer to a handle that no longer exists. */
  lemma {:induction false} CloseExactly(s: State, h: int)
    requires Sound(s) && h in s.video
    ensures Sound(Next(s, Close(h))) <==> Callable(s, Close(h))
  {
    if !Callable(s, Close(h)) {
      assert !Ready(Next(s, Close(h)), h);
    }
  }

  // -------------------------------------------------- what is granted

  lemma {:induction false} SomeMember(xs: set<int>) returns (x: int)
    requires xs != {}
    ensures x in xs
  {
    assert (forall x :: x !in xs) ==> xs == {};
    x :| x in xs;
  }

  /** A handle other than h owns one of these channels. */
  ghost predicate Taken(s: State, h: int, bits: set<Dma>) {
    exists g :: g != h && !(Held(s, g) !! bits)
  }

  /** A preview is granted if and only if the handle has a window, does not capture and no
      other one owns the first two channels; then it owns exactly these. */
  lemma {:induction false} StartGranted(s: State, h: int)
    requires Sound(s) && h in s.video
    ensures Answer(s, Start(h)) == if !s.video[h].ready then -11
                                   else if (s.mode.Capture? && s.mode.fh == h) || Taken(s, h, {Dma1, Dma2}) then -16
                                   else 0
    ensures if Answer(s, Start(h)) == 0
            then Next(s, Start(h)) == s.(mode := Preview(h)) && Held(Next(s, Start(h)), h) == {Dma1, Dma2}
            else Next(s, Start(h)) == s
  {
    if !s.mode.Idle? && s.mode.fh != h {
      assert Dma1 in Held(s, s.mode.fh);
    }
    if Taken(s, h, {Dma1, Dma2}) {
      var g :| g != h && !(Held(s, g) !! {Dma1, Dma2});
      assert Dma1 in Held(s, g) || Dma2 in Held(s, g);
    }
  }

  /** A stop ends the handle's own preview, and is refused by a capture of the handle and
      by the preview of another. */
  lemma {:induction false} StopGranted(s: State, h: int)
    requires Sound(s) && h in s.video
    ensures Answer(s, Stop(h)) == if Dma1 in Held(s, h) && s.mode.Capture? then -16
                                  else if s.mode.Preview? && Held(s, h) == {} then -16
                                  else 0
    ensures s.mode == Preview(h) ==> Next(s, Stop(h)) == s.(mode := Idle) && Held(Next(s, Stop(h)), h) == {}
    ensures s.mode != Preview(h) ==> Next(s, Stop(h)) == s
  {
  }

  /** The channels of a capture: all three for planar formats, else the first. */
  ghost predicate CaptureChannels(planar: bool, bits: set<Dma>) {
    forall d: Dma :: d in bits <==> planar || d == Dma1
  }

  /** A capture is granted if and only if each other handle that owns one of the channels
      it needs only previews; that preview is suspended. */
  lemma {:induction false} BeginGranted(s: State, h: int, bits: set<Dma>)
    requires Sound(s) && h in s.video && CaptureChannels(s.video[h].planar, bits)
    ensures Answer(s, Begin(h)) == 0 || Answer(s, Begin(h)) == -16
    ensures Answer(s, Begin(h)) == 0 <==>
            forall g :: g != h && !(Held(s, g) !! bits) ==> s.mode == Preview(g)
    ensures if Answer(s, Begin(h)) == 0
            then && Held(Next(s, Begin(h)), h) == bits
                 && Next(s, Begin(h)) == s.(mode := Capture(h, if s.mode.Preview? then Some(s.mode.fh)
                                                              else if s.mode.Capture? then s.mode.suspended else None))
            else Next(s, Begin(h)) == s
  {
    assert Dma1 in bits && (Dma3 in bits <==> s.video[h].planar);
    if s.mode.Capture? && s.mode.fh != h {
      assert Dma1 in Held(s, s.mode.fh);
    }
    assert Needs(s.video[h].planar) == bits by {
      forall d: Dma ensures d in Needs(s.video[h].planar) <==> d in bits {
        assert d == Dma1 || d == Dma2 || d == Dma3;
      }
    }
    if s.vbi != {} {
      var v := SomeMember(s.vbi);
      assert Held(s, v) == {Dma3};
    }
    forall g | g != h && !(Held(s, g) !! bits) && !s.mode.Capture? && s.vbi == {} ensures s.mode == Preview(g) {
    }
  }

  /** The end of a capture gives its channels back and brings back what it suspended; a
      handle that does not capture has nothing to end. */
  lemma {:induction false} EndGranted(s: State, h: int)
    requires Sound(s) && h in s.video
    ensures Answer(s, End(h)) == if s.mode.Capture? && Dma1 !in Held(s, h) then -16 else 0
    ensures !(s.mode.Capture? && s.mode.fh == h) ==> Next(s, End(h)) == s
    ensures s.mode.Capture? && s.mode.fh == h ==>
              var s' := Next(s, End(h));
              && s' == s.(mode := s'.mode)
              && (s.mode.suspended == None ==> s'.mode == Idle && Held(s', h) == {})
              && (s.mode.suspended.Some? ==>
                    s'.mode == Preview(s.mode.suspended.value) && Held(s', s.mode.suspended.value) == {Dma1, Dma2})
  {
  }

  /** The VBI channel is granted if and only if no handle owns it. */
  lemma {:induction false} VbiGranted(s: State, h: int)
    requires Sound(s) && h !in s.video && h !in s.vbi
    ensures Answer(s, VbiOpen(h)) == if exists g :: Dma3 in Held(s, g) then -16 else 0
    ensures if Answer(s, VbiOpen(h)) == 0
            then Next(s, VbiOpen(h)) == s.(vbi := s.vbi + {h}) && Held(Next(s, VbiOpen(h)), h) == {Dma3}
            else Next(s, VbiOpen(h)) == s
  {
    if s.vbi != {} {
      var v := SomeMember(s.vbi);
      assert Dma3 in Held(s, v);
    } else if PlanarCapture(s) {
      assert Dma3 in Held(s, s.mode.fh);
    }
  }

  /** A VBI handle that is closed gives its channel back, and nothing else changes. */
  lemma {:induction false} VbiFreed(s: State, h: int)
    requires Sound(s) && h in s.vbi
    ensures var s' := Next(s, VbiClose(h));
            && s' == s.(vbi := s.vbi - {h}) && Held(s', h) == {} && Dma3 !in InUse(s')
            && forall g :: g != h ==> Held(s', g) == Held(s, g)
  {
    assert forall a :: a in s.vbi ==> a == h;
    assert s.vbi - {h} == {};
  }

  /** A new handle owns nothing, and its capture format is packed. */
  lemma {:induction false} OpenFresh(s: State, h: int)
    requires Sound(s) && h !in s.video && h !in s.vbi
    ensures var s' := Next(s, Open(h));
            && s' == s.(video := s.video[h := Handle(false, false)]) && Held(s', h) == {}
            && forall g :: g != h ==> Held(s', g) == Held(s, g)
  {
  }

  /** Formats change exactly if they are valid and the handle does not capture; the video
      standard exactly if it is known and nobody does. */
  lemma {:induction false} SettingsGranted(s: State, h: int, planar: bool, valid: bool)
    requires Sound(s) && h in s.video
    ensures Answer(s, SetCaptureFormat(h, planar, valid))
         == if s.mode.Capture? && s.mode.fh == h then -16 else if valid then 0 else -22
    ensures Next(s, SetCaptureFormat(h, planar, valid))
         == if valid && !(s.mode.Capture? && s.mode.fh == h)
            then s.(video := s.video[h := Handle(planar, s.video[h].ready)]) else s
    ensures Answer(s, SetOverlayFormat(h, valid)) == if valid then 0 else -22
    ensures Next(s, SetOverlayFormat(h, valid))
         == if valid then s.(video := s.video[h := Handle(s.video[h].planar, true)]) else s
    ensures Answer(s, SetStandard(valid)) == if s.mode.Capture? then -16 else if valid then 0 else -22
    ensures Next(s, SetStandard(valid)) == s
  {
  }

  /** A handle that is closed owns nothing, and what it suspended comes back. */
  lemma {:induction false} CloseFrees(s: State, h: int)
    requires Sound(s) && Callable(s, Close(h))
    ensures var s' := Next(s, Close(h));
            && h !in s'.video && Held(s', h) == {} && s'.vbi == s.vbi && s'.video == s.video - {h}
            && forall g :: g != h ==>
                 Held(s', g) == if s.mode.Capture? && s.mode.fh == h && s.mode.suspended == Some(g) then {Dma1, Dma2}
                                else Held(s, g)
  {
  }

  // --------------------------------------------------------- whole runs

  ghost function Run(s: State, ops: seq<Op>): State
    decreases |ops|
  {
    if |ops| == 0 then s else Run(Next(s, ops[0]), ops[1..])
  }

  ghost predicate Allowed(s: State, ops: seq<Op>)
    decreases |ops|
  {
    |ops| == 0 || (Callable(s, ops[0]) && Allowed(Next(s, ops[0]), ops[1..]))
  }

  /** After every run the channels in use are the disjoint union of what the handles own. */
  lemma {:induction false} RunSound(s: State, ops: seq<Op>)
    requires Sound(s) && Allowed(s, ops)
    ensures var s' := Run(s, ops);
            && Sound(s') && (forall a, b :: a != b ==> Held(s', a) !! Held(s', b))
            && (forall d :: d in InUse(s') <==> exists h :: (h in s'.video || h in s'.vbi) && d in Held(s', h))
    decreases |ops|
  {
    if |ops| > 0 {
      NextSound(s, ops[0]);
      RunSound(Next(s, ops[0]), ops[1..]);
    } else {
      Exclusive(s);
    }
  }

  /** Nothing but its own end stops a capture, changes what it suspended or the format
      it was granted channels for. */
  lemma {:induction false} CaptureGoesOn(s: State, ops: seq<Op>, h: int)
    requires Sound(s) && Allowed(s, ops) && Captures(s, h) && End(h) !in ops && Close(h) !in ops
    ensures Run(s, ops).mode == s.mode && Held(Run(s, ops), h) == Held(s, h)
    decreases |ops|
  {
    if |ops| > 0 {
      assert ops[0] != End(h) && ops[0] != Close(h);
      NextSound(s, ops[0]);
      CaptureGoesOn(Next(s, ops[0]), ops[1..], h);
    }
  }

  /** Whatever happens during a capture, its end restores the preview it suspended, with
      the same owner and channels. */
  lemma {:induction false} PreviewComesBack(s: State, ops: seq<Op>, h: int, g: int)
    requires Sound(s) && s.mode == Preview(g) && h in s.video && Answer(s, Begin(h)) == 0
    requires Allowed(Next(s, Begin(h)), ops) && End(h) !in ops && Close(h) !in ops
    ensures var s' := Next(Run(Next(s, Begin(h)), ops), End(h));
            s'.mode == s.mode && Held(s', g) == Held(s, g)
  {
    var s1 := Next(s, Begin(h));
    NextSound(s, Begin(h));
    RunSound(s1, ops);
    CaptureGoesOn(s1, ops, h);
    NextSound(Run(s1, ops), End(h));
  }
}
