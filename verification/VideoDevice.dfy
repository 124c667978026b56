/** The SAA7146 video device as the driver keeps it: resource masks of the device and
    of each handle, a status word and three handle pointers. */
module VideoDevice {
  import opened Basics
  import opened Overlay

  datatype Status = Off | Overlaying | Capturing

  class Device {
    /** The channels in use, and those of each open handle. */
    var resources: set<Dma>
    var held: map<int, set<Dma>>
    var status: Status
    var videoFh: Option<int>
    var ovSuspend: Option<int>
    /** The open video handles and the VBI ones. */
    var handles: map<int, Handle>
    var vbi: set<int>

    ghost function Mode(): Mode
      reads this
    {
      if videoFh.None? then Idle
      else match status
        case Off => Idle
        case Overlaying => Preview(videoFh.value)
        case Capturing => Capture(videoFh.value, ovSuspend)
    }

    ghost function View(): State
      reads this
    {
      State(handles, vbi, Mode())
    }

    /** Masks and pointers agree with the state. */
    ghost predicate Consistent()
      reads this
    {
      && Sound(View())
      && (videoFh.None? <==> status == Off)
      && (forall d :: d in resources <==> Used(View(), d))
      && held.Keys == handles.Keys + vbi
      && forall h :: h in held ==> held[h] == Held(View(), h)
    }

    /** Between calls a handle is suspended only during a capture. */
    ghost predicate Valid()
      reads this
    {
      Consistent() && (status != Capturing ==> ovSuspend == None)
    }

    constructor ()
      ensures Valid() && View() == State(map[], {}, Idle)
    {
      resources, held, status, videoFh, ovSuspend, handles, vbi := {}, map[], Off, None, None, map[], {};
    }

    method ResGet(fh: int, bits: set<Dma>) returns (ok: bool)
      requires fh in held
      modifies this`resources, this`held
      ensures ok <==> !(old(held)[fh] !! bits) || old(resources) !! bits
      ensures if old(held)[fh] !! bits && old(resources) !! bits
              then resources == old(resources) + bits && held == old(held)[fh := old(held)[fh] + bits]
              else resources == old(resources) && held == old(held)
    {
      if !(held[fh] !! bits) {
        return true;
      }
      if !(resources !! bits) {
        return false;
      }
      held := held[fh := held[fh] + bits];
      resources := resources + bits;
      return true;
    }

    /** The precondition is the condition that the driver treats as a fatal bug. */
    method ResFree(fh: int, bits: set<Dma>)
      requires fh in held && bits <= held[fh]
      modifies this`resources, this`held
      ensures resources == old(resources) - bits && held == old(held)[fh := old(held)[fh] - bits]
    {
      held := held[fh := held[fh] - bits];
      resources := resources - bits;
    }

    /** Starts the preview of fh. If its window does not fit or the overlay cannot be
        enabled, the driver frees channels of a null handle; that happens exactly if it
        had got the channels. */
    method StartPreview(fh: int, fits: bool, enable: int) returns (r: int, oops: bool)
      requires Consistent() && fh in handles
      modifies this`resources, this`held, this`status, this`videoFh
      ensures oops <==> (!fits || enable != 0) && Ready(old(View()), fh) && old(View()).mode == Idle
      ensures !oops ==> Consistent() && r == Answer(old(View()), Start(fh)) && View() == Next(old(View()), Start(fh))
    {
      if !handles[fh].ready {
        return -EAGAIN, false;
      }
      if status == Capturing && videoFh == Some(fh) {
        return -EBUSY, false;
      }
      if status == Overlaying && videoFh == Some(fh) {
        return 0, false;
      }
      var ok := ResGet(fh, {Dma1, Dma2});
      if !ok {
        return -EBUSY, false;
      }
      if !fits {
        return -EBUSY, true;
      }
      if enable != 0 {
        return enable, true;
      }
      status, videoFh := Overlaying, Some(fh);
      return 0, false;
    }

    method StopPreview(fh: int) returns (r: int)
      requires Consistent() && fh in handles
      modifies this`resources, this`held, this`status, this`videoFh
      ensures Consistent() && r == Answer(old(View()), Stop(fh)) && View() == Next(old(View()), Stop(fh))
    {
      if status == Capturing && videoFh == Some(fh) {
        return -EBUSY;
      }
      if status != Overlaying {
        return 0;
      }
      if videoFh != Some(fh) {
        return -EBUSY;
      }
      status, videoFh := Off, None;
      ResFree(fh, {Dma1, Dma2});
      return 0;
    }

    /** Restarts the preview that was suspended, if any. Its window fitted before. */
    method ResumePreview()
      requires Consistent() && status == Off
      requires ovSuspend.Some? ==> Ready(View(), ovSuspend.value)
      modifies this
      ensures Valid() && ovSuspend == None
      ensures View() == old(View()).(mode := Resumed(old(ovSuspend)))
    {
      if ovSuspend != None {
        var r, oops := StartPreview(ovSuspend.value, true, 0);
        ovSuspend := None;
      }
    }

    /** Stops a preview that is running and remembers whose it was. */
    method SuspendPreview() returns (err: int)
      requires Valid() && status != Capturing
      modifies this
      ensures err == 0 && Consistent() && status == Off && ovSuspend == Suspended(old(View()).mode)
      ensures View() == old(View()).(mode := Idle)
    {
      err := 0;
      if status == Overlaying {
        ovSuspend := videoFh;
        err := StopPreview(videoFh.value);
      }
    }

    /** Takes the channels for a capture by fh, if they are free. */
    method TakeCapture(fh: int) returns (ok: bool)
      requires Consistent() && status == Off && fh in handles
      requires ovSuspend.Some? ==> Ready(View(), ovSuspend.value)
      modifies this`resources, this`held, this`status, this`videoFh
      ensures Consistent() && (ok <==> Grantable(View(), fh))
      ensures if ok then status == Capturing && View() == old(View()).(mode := Capture(fh, ovSuspend))
              else status == Off && View() == old(View())
    {
      var resource := if handles[fh].planar then {Dma1, Dma2, Dma3} else {Dma1};
      ok := ResGet(fh, resource);
      if ok {
        status, videoFh := Capturing, Some(fh);
      }
    }

    method VideoBegin(fh: int) returns (r: int)
      requires Valid() && fh in handles
      modifies this
      ensures Valid() && r == Answer(old(View()), Begin(fh)) && View() == Next(old(View()), Begin(fh))
    {
      if status == Capturing {
        if videoFh == Some(fh) {
          return 0;
        }
        return -EBUSY;
      }
      var err := SuspendPreview();
      if err != 0 {
        return err;
      }
      var ok := TakeCapture(fh);
      if !ok {
        ResumePreview();
        return -EBUSY;
      }
      return 0;
    }

    method VideoEnd(fh: int) returns (r: int)
      requires Valid() && fh in handles
      modifies this
      ensures Valid() && r == Answer(old(View()), End(fh)) && View() == Next(old(View()), End(fh))
    {
      if status != Capturing {
        return 0;
      }
      if videoFh != Some(fh) {
        return -EBUSY;
      }
      var resource := if handles[fh].planar then {Dma1, Dma2, Dma3} else {Dma1};
      videoFh, status := None, Off;
      ResFree(fh, resource);
      ResumePreview();
      return 0;
    }

    /** Changes the capture format; valid says whether the format is acceptable. */
    method SetFmtCapture(fh: int, planar: bool, valid: bool) returns (r: int)
      requires Valid() && fh in handles
      modifies this`handles
      ensures Valid() && r == Answer(old(View()), SetCaptureFormat(fh, planar, valid))
      ensures View() == Next(old(View()), SetCaptureFormat(fh, planar, valid))
    {
      if status == Capturing && videoFh == Some(fh) {
        return -EBUSY;
      }
      if !valid {
        return -EINVAL;
      }
      handles := handles[fh := handles[fh].(planar := planar)];
      return 0;
    }

    method MarkReady(fh: int)
      requires Valid() && fh in handles
      modifies this`handles
      ensures Valid() && View() == Next(old(View()), SetOverlayFormat(fh, true))
    {
      handles := handles[fh := handles[fh].(ready := true)];
    }

    /** Sets the overlay window; a preview that is running is restarted with it. */
    method SetFmtOverlay(fh: int, valid: bool) returns (r: int)
      requires Valid() && fh in handles
      modifies this
      ensures Valid() && r == Answer(old(View()), SetOverlayFormat(fh, valid))
      ensures View() == Next(old(View()), SetOverlayFormat(fh, valid))
    {
      if !valid {
        return -EINVAL;
      }
      MarkReady(fh);
      if status == Overlaying && videoFh == Some(fh) {
        var stopped := StopPreview(fh);
        var started, oops := StartPreview(fh, true, 0);
      }
      return 0;
    }

    /** Changes the video standard, with the preview suspended meanwhile. */
    method SetStd(found: bool) returns (r: int)
      requires Valid()
      modifies this
      ensures Valid() && r == Answer(old(View()), SetStandard(found)) && View() == Next(old(View()), SetStandard(found))
    {
      if status == Capturing {
        return -EBUSY;
      }
      var err := SuspendPreview();
      if err != 0 {
        return err;
      }
      ResumePreview();
      if !found {
        return -EINVAL;
      }
      return 0;
    }

    method VideoOpen(fh: int)
      requires Valid() && Callable(View(), Open(fh))
      modifies this`handles, this`held
      ensures Valid() && View() == Next(old(View()), Open(fh))
    {
      handles := handles[fh := Handle(false, false)];
      held := held[fh := {}];
    }

    /** Ends what the handle does, then forgets it. */
    method VideoClose(fh: int)
      requires Valid() && Callable(View(), Close(fh))
      modifies this
      ensures Valid() && View() == Next(old(View()), Close(fh))
    {
      if status == Capturing && videoFh == Some(fh) {
        var r := VideoEnd(fh);
      } else if status == Overlaying && videoFh == Some(fh) {
        var r := StopPreview(fh);
      }
      Forget(fh);
    }

    method Forget(fh: int)
      requires Valid() && fh in handles && !(View().mode.Preview? && View().mode.fh == fh) && !Captures(View(), fh)
      requires View().mode.Capture? ==> View().mode.suspended != Some(fh)
      modifies this`handles, this`held
      ensures Valid() && View() == old(View()).(video := old(View()).video - {fh})
    {
      handles := handles - {fh};
      held := held - {fh};
    }

    /** Counts fh, which has just got the VBI channel, among the open handles. */
    method EnterVbi(fh: int)
      requires fh !in handles && fh !in vbi && fh in held && held[fh] == {Dma3} && !Used(View(), Dma3)
      requires Sound(View()) && (videoFh.None? <==> status == Off) && (status != Capturing ==> ovSuspend == None)
      requires forall d :: d in resources <==> d == Dma3 || Used(View(), d)
      requires held.Keys == handles.Keys + vbi + {fh} && forall h :: h in held && h != fh ==> held[h] == Held(View(), h)
      modifies this`vbi
      ensures Valid() && vbi == old(vbi) + {fh}
    {
      assert vbi == {};
      vbi := vbi + {fh};
    }

    method OpenVbi(fh: int) returns (r: int)
      requires Valid() && Callable(View(), VbiOpen(fh))
      modifies this`resources, this`held, this`vbi
      ensures Valid() && r == Answer(old(View()), VbiOpen(fh)) && View() == Next(old(View()), VbiOpen(fh))
    {
      held := held[fh := {}];
      var ok := ResGet(fh, {Dma3});
      if !ok {
        held := held - {fh};
        return -EBUSY;
      }
      EnterVbi(fh);
      return 0;
    }

    method CloseVbi(fh: int)
      requires Valid() && Callable(View(), VbiClose(fh))
      modifies this`resources, this`held, this`vbi
      ensures Valid() && View() == Next(old(View()), VbiClose(fh))
    {
      assert forall a :: a in vbi ==> a == fh;
      ResFree(fh, {Dma3});
      held := held - {fh};
      vbi := vbi - {fh};
      assert vbi == {};
    }

    method Perform(op: Op) returns (r: int)
      requires Valid() && Callable(View(), op)
      modifies this
      ensures Valid() && r == Answer(old(View()), op) && View() == Next(old(View()), op)
    {
      r := 0;
      match op {
        case Open(h) => VideoOpen(h);
        case Close(h) => VideoClose(h);
        case VbiOpen(h) => r := OpenVbi(h);
        case VbiClose(h) => CloseVbi(h);
        case Start(h) =>
          var oops;
          r, oops := StartPreview(h, true, 0);
        case Stop(h) => r := StopPreview(h);
        case Begin(h) => r := VideoBegin(h);
        case End(h) => r := VideoEnd(h);
        case SetCaptureFormat(h, planar, valid) => r := SetFmtCapture(h, planar, valid);
        case SetOverlayFormat(h, valid) => r := SetFmtOverlay(h, valid);
        case SetStandard(found) => r := SetStd(found);
      }
    }

    /** Every run of calls does to the driver's fields what it does to the state. */
    method RunAll(ops: seq<Op>)
      requires Valid() && Allowed(View(), ops)
      modifies this
      ensures Valid() && View() == Run(old(View()), ops)
    {
      ghost var s := View();
      assert ops[0..] == ops;
      for i := 0 to |ops|
        invariant Valid() && Allowed(View(), ops[i..]) && Run(View(), ops[i..]) == Run(s, ops)
      {
        assert ops[i..][0] == ops[i] && ops[i..][1..] == ops[i + 1..];
        var r := Perform(ops[i]);
      }
    }
  }
}
