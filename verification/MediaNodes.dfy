/** Device nodes and their minor numbers: registration, opening and closing in any order. */
module MediaNodes {
  const NUM_DEVICES := 256
  const ENFILE := 23
  const ENXIO := 6

  /** A node that still has references. */
  datatype Node = Node(minor: nat, registered: bool, opens: nat)

  /** The nodes with references, and the bitmap of minors in use. */
  datatype State = State(nodes: map<int, Node>, minors: set<nat>)

  datatype Op =
    | Register(node: int, cdev: int, device: int)
    | Unregister(node: int)
    | Open(node: int, err: int)
    | Close(node: int)

  /** Registering holds one reference and each open file one. */
  function References(n: Node): nat {
    n.opens + if n.registered then 1 else 0
  }

  /** A minor is in use exactly while a node that has it is registered or open, and no
      two nodes share one. */
  ghost predicate Sound(s: State) {
    && (forall n :: n in s.nodes ==> References(s.nodes[n]) > 0 && s.nodes[n].minor < NUM_DEVICES)
    && (forall n :: n in s.nodes ==> s.nodes[n].minor in s.minors)
    && (forall m :: m in s.minors ==> exists n :: n in s.nodes && s.nodes[n].minor == m)
    && (forall a, b :: a in s.nodes && b in s.nodes && s.nodes[a].minor == s.nodes[b].minor ==> a == b)
  }

  /** The first free minor from m on. */
  function FreeMinor(minors: set<nat>, m: nat): nat
    decreases NUM_DEVICES - m
  {
    if m < NUM_DEVICES && m in minors then FreeMinor(minors, m + 1) else m
  }

  lemma {:induction false} FreeMinorIsFree(minors: set<nat>, m: nat)
    requires m <= NUM_DEVICES
    ensures m <= FreeMinor(minors, m) <= NUM_DEVICES
    ensures FreeMinor(minors, m) < NUM_DEVICES ==> FreeMinor(minors, m) !in minors
    ensures forall k: nat :: m <= k < FreeMinor(minors, m) ==> k in minors
    decreases NUM_DEVICES - m
  {
    if m < NUM_DEVICES && m in minors {
      FreeMinorIsFree(minors, m + 1);
    }
  }

  /** A node drops a reference; with the last one its minor becomes free. */
  function Dropped(s: State, n: int, node: Node): State {
    if References(node) > 0 then s.(nodes := s.nodes[n := node])
    else State(s.nodes - {n}, s.minors - {node.minor})
  }

  predicate Callable(s: State, op: Op) {
    match op
    case Register(n, _, _) => n !in s.nodes
    case Close(n) => n in s.nodes && s.nodes[n].opens > 0
    case _ => true
  }

  predicate IsRegistered(s: State, n: int) {
    n in s.nodes && s.nodes[n].registered
  }

  function Answer(s: State, op: Op): int {
    match op
    case Register(_, cdev, device) =>
      if FreeMinor(s.minors, 0) == NUM_DEVICES then -ENFILE
      else if cdev < 0 then cdev else if device < 0 then device else 0
    case Open(n, err) => if !IsRegistered(s, n) then -ENXIO else err
    case _ => 0
  }

  function Next(s: State, op: Op): State {
    match op
    case Register(n, _, _) =>
      var m := FreeMinor(s.minors, 0);
      if Answer(s, op) == 0 then State(s.nodes[n := Node(m, true, 0)], s.minors + {m}) else s
    case Unregister(n) => if IsRegistered(s, n) then Dropped(s, n, s.nodes[n].(registered := false)) else s
    case Open(n, err) =>
      if IsRegistered(s, n) && err == 0
      then s.(nodes := s.nodes[n := s.nodes[n].(opens := s.nodes[n].opens + 1)])
      else s
    case Close(n) =>
      if n in s.nodes && s.nodes[n].opens > 0 then Dropped(s, n, s.nodes[n].(opens := s.nodes[n].opens - 1)) else s
  }

  lemma {:induction false} DroppedSound(s: State, n: int, node: Node)
    requires Sound(s) && n in s.nodes && node.minor == s.nodes[n].minor
    ensures Sound(Dropped(s, n, node))
  {
    var s' := Dropped(s, n, node);
    forall m | m in s'.minors ensures exists k :: k in s'.nodes && s'.nodes[k].minor == m {
      var k :| k in s.nodes && s.nodes[k].minor == m;
      assert k in s'.nodes;
    }
  }

  lemma {:induction false} RegisterSound(s: State, op: Op)
    requires Sound(s) && op.Register? && Callable(s, op)
    ensures Sound(Next(s, op))
  {
    var s' := Next(s, op);
    FreeMinorIsFree(s.minors, 0);
    if Answer(s, op) == 0 {
      forall m | m in s'.minors ensures exists k :: k in s'.nodes && s'.nodes[k].minor == m {
        if m in s.minors {
          var k :| k in s.nodes && s.nodes[k].minor == m;
          assert s'.nodes[k].minor == m;
        } else {
          assert s'.nodes[op.node].minor == m;
        }
      }
    }
  }

  lemma {:induction false} NextSound(s: State, op: Op)
    requires Sound(s) && Callable(s, op)
    ensures Sound(Next(s, op))
  {
    match op {
      case Register(_, _, _) => RegisterSound(s, op);
      case Unregister(n) =>
        if IsRegistered(s, n) {
          DroppedSound(s, n, s.nodes[n].(registered := false));
        }
      case Open(n, err) =>
        if IsRegistered(s, n) && err == 0 {
          DroppedSound(s, n, s.nodes[n].(opens := s.nodes[n].opens + 1));
        }
      case Close(n) => DroppedSound(s, n, s.nodes[n].(opens := s.nodes[n].opens - 1));
    }
  }

  // --------------------------------------------------------- whole runs

  ghost function Run(s: State, ops: seq<Op>): State
    decreases |ops|
  {
    if |ops| == 0 then s else Run(Next(s, ops[0]), ops[1..])
  }

  ghost predicate Allowed(s: State, ops: seq<Op>)
    decreases |ops|
  {
    |ops| == 0 || (Callable(s, ops[0]) && Allowed(Next(s, ops[0]), ops[1..]))
  }

  lemma {:induction false} RunSound(s: State, ops: seq<Op>)
    requires Sound(s) && Allowed(s, ops)
    ensures Sound(Run(s, ops))
    decreases |ops|
  {
    if |ops| > 0 {
      NextSound(s, ops[0]);
      RunSound(Next(s, ops[0]), ops[1..]);
    }
  }

  lemma {:induction false} NotRegistered(s: State, op: Op, n: int)
    requires !IsRegistered(s, n) && !(op.Register? && op.node == n)
    ensures !IsRegistered(Next(s, op), n)
  {
  }

  /** Once unregistered, a node cannot be opened until it is registered anew. */
  lemma {:induction false} StaysClosed(s: State, ops: seq<Op>, n: int, err: int)
    requires !IsRegistered(s, n)
    requires forall k :: 0 <= k < |ops| && ops[k].Register? ==> ops[k].node != n
    ensures !IsRegistered(Run(s, ops), n) && Answer(Run(s, ops), Open(n, err)) == -ENXIO
    decreases |ops|
  {
    if |ops| > 0 {
      var s' := Next(s, ops[0]);
      NotRegistered(s, ops[0], n);
      StaysClosed(s', ops[1..], n, err);
    }
  }

  lemma {:induction false} SameMinor(s: State, op: Op, n: int)
    requires Callable(s, op) && n in s.nodes && n in Next(s, op).nodes
    ensures Next(s, op).nodes[n].minor == s.nodes[n].minor
  {
  }

  lemma {:induction false} OtherMinor(s: State, n: int, k: int)
    requires Sound(s) && n in s.nodes && k in s.nodes && k != n
    ensures s.nodes[k].minor != s.nodes[n].minor
  {
  }

  /** While a node has references it keeps its minor, and no other node gets it. */
  lemma {:induction false} KeepsMinor(s: State, op: Op, n: int, k: int)
    requires Sound(s) && Callable(s, op) && n in s.nodes && n in Next(s, op).nodes && k in Next(s, op).nodes && k != n
    ensures Next(s, op).nodes[n].minor == s.nodes[n].minor && Next(s, op).nodes[k].minor != s.nodes[n].minor
  {
    var s' := Next(s, op);
    NextSound(s, op);
    SameMinor(s, op, n);
    OtherMinor(s', n, k);
  }

  /** The node has references before, between and after the calls. */
  ghost predicate Held(s: State, ops: seq<Op>, n: int)
    decreases |ops|
  {
    n in s.nodes && (|ops| == 0 || Held(Next(s, ops[0]), ops[1..], n))
  }

  /** However long a node has references, it keeps its minor all the time, and no other
      node ever has it: the minor is free again only after the last reference is dropped. */
  lemma {:induction false} RunKeepsMinor(s: State, ops: seq<Op>, n: int, k: int)
    requires Sound(s) && Allowed(s, ops) && Held(s, ops, n) && k != n
    ensures var s' := Run(s, ops);
            && n in s'.nodes && s'.nodes[n].minor == s.nodes[n].minor && s.nodes[n].minor in s'.minors
            && (k in s'.nodes ==> s'.nodes[k].minor != s.nodes[n].minor)
    decreases |ops|
  {
    if |ops| > 0 {
      NextSound(s, ops[0]);
      SameMinor(s, ops[0], n);
      RunKeepsMinor(Next(s, ops[0]), ops[1..], n, k);
    } else if k in s.nodes {
      OtherMinor(s, n, k);
    }
  }

  // ------------------------------------------- what the calls add up to

  /** Nothing is registered. */
  const EMPTY := State(map[], {})

  ghost function Answers(s: State, ops: seq<Op>): (rs: seq<int>)
    ensures |rs| == |ops|
    decreases |ops|
  {
    if |ops| == 0 then [] else [Answer(s, ops[0])] + Answers(Next(s, ops[0]), ops[1..])
  }

  /** The files open at n, from the calls and their answers alone: opens answered with 0
      less closes, since n was last registered. */
  ghost function OpenFiles(ops: seq<Op>, rs: seq<int>, n: int): int
    requires |rs| == |ops|
    decreases |ops|
  {
    if |ops| == 0 then 0
    else
      var k := |ops| - 1;
      var before := OpenFiles(ops[..k], rs[..k], n);
      if ops[k].node != n then before
      else match ops[k]
        case Register(_, _, _) => if rs[k] == 0 then 0 else before
        case Open(_, _) => if rs[k] == 0 then before + 1 else before
        case Close(_) => before - 1
        case Unregister(_) => before
  }

  /** n was registered, and not unregistered since. */
  ghost predicate StaysRegistered(ops: seq<Op>, rs: seq<int>, n: int)
    requires |rs| == |ops|
    decreases |ops|
  {
    if |ops| == 0 then false
    else
      var k := |ops| - 1;
      var before := StaysRegistered(ops[..k], rs[..k], n);
      if ops[k].node != n then before
      else if ops[k].Register? then rs[k] == 0 || before
      else !ops[k].Unregister? && before
  }

  /** The state says of n what the calls add up to. */
  ghost predicate Explains(s: State, n: int, registered: bool, files: int) {
    if n in s.nodes then s.nodes[n].registered == registered && s.nodes[n].opens == files && (registered || files > 0)
    else !registered && files == 0
  }

  lemma {:induction false} RunSnoc(s: State, ops: seq<Op>, op: Op)
    ensures Run(s, ops + [op]) == Next(Run(s, ops), op)
    ensures Answers(s, ops + [op]) == Answers(s, ops) + [Answer(Run(s, ops), op)]
    ensures Allowed(s, ops + [op]) <==> Allowed(s, ops) && Callable(Run(s, ops), op)
    decreases |ops|
  {
    if |ops| > 0 {
      assert (ops + [op])[1..] == ops[1..] + [op];
      RunSnoc(Next(s, ops[0]), ops[1..], op);
    } else {
      assert (ops + [op])[1..] == [];
    }
  }

  lemma {:induction false} NextExplains(s: State, op: Op, n: int, registered: bool, files: int)
    requires Explains(s, n, registered, files) && Callable(s, op)
    ensures op.node != n ==> Explains(Next(s, op), n, registered, files)
    ensures op.node == n && op.Register? ==>
              if Answer(s, op) == 0 then Explains(Next(s, op), n, true, 0)
              else Explains(Next(s, op), n, registered, files)
    ensures op.node == n && op.Unregister? ==> Explains(Next(s, op), n, false, files)
    ensures op.node == n && op.Open? ==>
              Explains(Next(s, op), n, registered, if Answer(s, op) == 0 then files + 1 else files)
    ensures op.node == n && op.Close? ==> Explains(Next(s, op), n, registered, files - 1)
  {
  }

  /** After every run from the start, a node has references if and only if it is still
      registered or has open files, as the calls and their answers have it. */
  lemma {:induction false} RunExplained(ops: seq<Op>, n: int)
    requires Allowed(EMPTY, ops)
    ensures var rs := Answers(EMPTY, ops);
            Explains(Run(EMPTY, ops), n, StaysRegistered(ops, rs, n), OpenFiles(ops, rs, n))
    decreases |ops|
  {
    if |ops| > 0 {
      var k := |ops| - 1;
      var before, op := ops[..k], ops[k];
      assert ops == before + [op];
      RunSnoc(EMPTY, before, op);
      RunExplained(before, n);
      var rs := Answers(EMPTY, before);
      assert Answers(EMPTY, ops)[..k] == rs;
      NextExplains(Run(EMPTY, before), op, n, StaysRegistered(before, rs, n), OpenFiles(before, rs, n));
    }
  }

  /** n has references, by the calls and their answers alone. */
  ghost predicate InUse(ops: seq<Op>, rs: seq<int>, n: int)
    requires |rs| == |ops|
  {
    StaysRegistered(ops, rs, n) || OpenFiles(ops, rs, n) > 0
  }

  /** After every run from the start, a minor is in use exactly while the node it was given
      to is registered or has open files, and no two such nodes share one. */
  lemma {:induction false} MinorsExplained(ops: seq<Op>)
    requires Allowed(EMPTY, ops)
    ensures var s, rs := Run(EMPTY, ops), Answers(EMPTY, ops);
            && (forall n :: n in s.nodes <==> InUse(ops, rs, n))
            && (forall m :: m in s.minors <==> exists n :: n in s.nodes && s.nodes[n].minor == m)
            && (forall a, b :: a in s.nodes && b in s.nodes && s.nodes[a].minor == s.nodes[b].minor ==> a == b)
  {
    RunSound(EMPTY, ops);
    forall n ensures n in Run(EMPTY, ops).nodes <==> InUse(ops, Answers(EMPTY, ops), n) {
      RunExplained(ops, n);
    }
  }
}

/** The minors as the driver keeps them. */
module MediaDevnode {
  import opened MediaNodes

  class Minors {
    var bitmap: set<nat>
    /** The nodes: minor, registered flag and open files. */
    var nodes: map<int, Node>

    ghost function View(): State
      reads this
    {
      State(nodes, bitmap)
    }

    constructor ()
      ensures View() == State(map[], {})
    {
      bitmap, nodes := {}, map[];
    }

    /** cdev and device are what the kernel answers to the two registrations. */
    method RegisterNode(node: int, cdev: int, device: int) returns (r: int)
      requires Sound(View()) && Callable(View(), Register(node, cdev, device))
      modifies this
      ensures r == Answer(old(View()), Register(node, cdev, device))
      ensures r == if forall m: nat :: m < 256 ==> m in old(bitmap) then -23
                   else if cdev < 0 then cdev else if device < 0 then device else 0
      ensures r == 0 ==>
                && node in nodes && nodes[node].minor !in old(bitmap) && nodes[node].minor < 256
                && bitmap == old(bitmap) + {nodes[node].minor}
                && forall m: nat :: m < nodes[node].minor ==> m in old(bitmap)
      ensures View() == Next(old(View()), Register(node, cdev, device))
    {
      var minor := 0;
      while minor < NUM_DEVICES && minor in bitmap
        invariant minor <= NUM_DEVICES && FreeMinor(bitmap, 0) == FreeMinor(bitmap, minor)
        decreases NUM_DEVICES - minor
      {
        minor := minor + 1;
      }
      FreeMinorIsFree(bitmap, 0);
      if minor == NUM_DEVICES {
        return -ENFILE;
      }
      ghost var was := bitmap;
      bitmap := bitmap + {minor};
      r := cdev;
      if r >= 0 {
        r := device;
      }
      if r < 0 {
        bitmap := bitmap - {minor};
        assert bitmap == was;
        return;
      }
      nodes := nodes[node := Node(minor, true, 0)];
      r := 0;
    }

    /** Drops a reference to a node whose fields are now n; the last one frees its minor. */
    method PutDevice(node: int, n: Node)
      requires node in nodes
      modifies this
      ensures View() == Dropped(old(View()), node, n)
    {
      if References(n) > 0 {
        nodes := nodes[node := n];
      } else {
        bitmap := bitmap - {n.minor};
        nodes := nodes - {node};
      }
    }

    method UnregisterNode(node: int)
      modifies this
      ensures View() == Next(old(View()), Unregister(node))
    {
      if !(node in nodes && nodes[node].registered) {
        return;
      }
      PutDevice(node, nodes[node].(registered := false));
    }

    /** err is what the node's own open answers. */
    method OpenNode(node: int, err: int) returns (r: int)
      requires Sound(View())
      modifies this
      ensures r == Answer(old(View()), Open(node, err)) && View() == Next(old(View()), Open(node, err))
      ensures bitmap == old(bitmap) && nodes.Keys == old(nodes).Keys
      ensures node in nodes ==> nodes[node].opens == old(nodes)[node].opens + if r == 0 then 1 else 0
      ensures r == if node in old(nodes) && old(nodes)[node].registered then err else -6
    {
      if !(node in nodes && nodes[node].registered) {
        return -ENXIO;
      }
      ghost var was := nodes;
      nodes := nodes[node := nodes[node].(opens := nodes[node].opens + 1)];
      if err != 0 {
        PutDevice(node, nodes[node].(opens := nodes[node].opens - 1));
        assert nodes == was;
      }
      r := err;
    }

    method CloseNode(node: int)
      requires Callable(View(), Close(node))
      modifies this
      ensures View() == Next(old(View()), Close(node))
    {
      PutDevice(node, nodes[node].(opens := nodes[node].opens - 1));
    }

    method Perform(op: Op) returns (r: int)
      requires Sound(View()) && Callable(View(), op)
      modifies this
      ensures r == Answer(old(View()), op) && View() == Next(old(View()), op)
    {
      r := 0;
      match op {
        case Register(n, cdev, device) => r := RegisterNode(n, cdev, device);
        case Unregister(n) => UnregisterNode(n);
        case Open(n, err) => r := OpenNode(n, err);
        case Close(n) => CloseNode(n);
      }
    }

    /** Any run of calls. */
    method RunAll(ops: seq<Op>) returns (rs: seq<int>)
      requires Sound(View()) && Allowed(View(), ops)
      modifies this
      ensures View() == Run(old(View()), ops) && rs == Answers(old(View()), ops) && Sound(View())
    {
      rs := [];
      ghost var s := View();
      RunSound(s, ops);
      assert ops[0..] == ops;
      for i := 0 to |ops|
        invariant Sound(View()) && Allowed(View(), ops[i..])
        invariant Run(View(), ops[i..]) == Run(s, ops) && rs + Answers(View(), ops[i..]) == Answers(s, ops)
      {
        assert ops[i..][0] == ops[i] && ops[i..][1..] == ops[i + 1..];
        NextSound(View(), ops[i]);
        var r := Perform(ops[i]);
        rs := rs + [r];
      }
    }
  }
}
