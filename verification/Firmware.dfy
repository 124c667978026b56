/** Ordering records and writing them as a big-endian stream for the kernel. */
module Firmware {
  import opened Basics
  import opened IntelHex

  // ------------------------------------------------------------- filing

  /** Where a record is put: before the first one whose address is not smaller, if
      records are sorted; else at the end. */
  function Place(list: seq<Record>, r: Record, sort: bool, p: nat): nat
    requires p <= |list|
    decreases |list| - p
  {
    if p < |list| && (!sort || list[p].addr < r.addr) then Place(list, r, sort, p + 1) else p
  }

  lemma {:induction false} PlaceBound(list: seq<Record>, r: Record, sort: bool, p: nat)
    requires p <= |list|
    ensures p <= Place(list, r, sort, p) <= |list|
    ensures forall k :: p <= k < Place(list, r, sort, p) ==> !sort || list[k].addr < r.addr
    ensures Place(list, r, sort, p) < |list| ==> sort && list[Place(list, r, sort, p)].addr >= r.addr
    decreases |list| - p
  {
    if p < |list| && (!sort || list[p].addr < r.addr) {
      PlaceBound(list, r, sort, p + 1);
    }
  }

  function Inserted(list: seq<Record>, r: Record, p: nat): seq<Record>
    requires p <= |list|
  {
    list[..p] + [r] + list[p..]
  }

  function Filed(list: seq<Record>, r: Record, sort: bool): seq<Record> {
    PlaceBound(list, r, sort, 0);
    Inserted(list, r, Place(list, r, sort, 0))
  }

  /** The list after the first k of rs are filed. */
  function FiledAll(rs: seq<Record>, sort: bool, k: nat): seq<Record>
    requires k <= |rs|
  {
    if k == 0 then [] else Filed(FiledAll(rs, sort, k - 1), rs[k - 1], sort)
  }

  lemma {:induction false} FiledPrefix(rs: seq<Record>, r: Record, sort: bool, k: nat)
    requires k <= |rs|
    ensures FiledAll(rs + [r], sort, k) == FiledAll(rs, sort, k)
    decreases k
  {
    if k > 0 {
      FiledPrefix(rs, r, sort, k - 1);
    }
  }

  lemma {:induction false} FiledMore(rs: seq<Record>, r: Record, sort: bool)
    ensures FiledAll(rs + [r], sort, |rs| + 1) == Filed(FiledAll(rs, sort, |rs|), r, sort)
  {
    FiledPrefix(rs, r, sort, |rs|);
  }

  ghost predicate Sorted(list: seq<Record>) {
    forall a, b :: 0 <= a < b < |list| ==> list[a].addr <= list[b].addr
  }

  lemma {:induction false} FiledInOrder(rs: seq<Record>, k: nat)
    requires k <= |rs|
    ensures FiledAll(rs, false, k) == rs[..k]
    decreases k
  {
    if k > 0 {
      FiledInOrder(rs, k - 1);
      PlaceBound(rs[..k - 1], rs[k - 1], false, 0);
      assert rs[..k - 1] + [rs[k - 1]] == rs[..k];
    }
  }

  lemma {:induction false} FiledSorted(list: seq<Record>, r: Record)
    requires Sorted(list)
    ensures Sorted(Filed(list, r, true))
  {
    PlaceBound(list, r, true, 0);
  }

  lemma {:induction false} InsertedMultiset(list: seq<Record>, r: Record, p: nat)
    requires p <= |list|
    ensures multiset(Inserted(list, r, p)) == multiset(list) + multiset{r}
  {
    assert list == list[..p] + list[p..];
  }

  /** Sorting files an address-sorted permutation. */
  lemma {:induction false} FiledPermutation(rs: seq<Record>, k: nat)
    requires k <= |rs|
    ensures Sorted(FiledAll(rs, true, k)) && multiset(FiledAll(rs, true, k)) == multiset(rs[..k])
    decreases k
  {
    if k > 0 {
      FiledPermutation(rs, k - 1);
      var list := FiledAll(rs, true, k - 1);
      FiledSorted(list, rs[k - 1]);
      PlaceBound(list, rs[k - 1], true, 0);
      InsertedMultiset(list, rs[k - 1], Place(list, rs[k - 1], true, 0));
      assert rs[..k] == rs[..k - 1] + [rs[k - 1]];
    }
  }

  /** The records at address a, in order. */
  ghost function AtAddress(list: seq<Record>, a: int): seq<Record>
    decreases |list|
  {
    if |list| == 0 then []
    else if list[0].addr == a then [list[0]] + AtAddress(list[1..], a)
    else AtAddress(list[1..], a)
  }

  lemma {:induction false} AtAddressConcat(x: seq<Record>, y: seq<Record>, a: int)
    ensures AtAddress(x + y, a) == AtAddress(x, a) + AtAddress(y, a)
    decreases |x|
  {
    if |x| == 0 {
      assert x + y == y && AtAddress(x, a) == [];
    } else {
      assert (x + y)[1..] == x[1..] + y;
      AtAddressConcat(x[1..], y, a);
    }
  }

  lemma {:induction false} NoneAtAddress(list: seq<Record>, a: int)
    requires forall k :: 0 <= k < |list| ==> list[k].addr != a
    ensures AtAddress(list, a) == []
    decreases |list|
  {
    if |list| > 0 {
      NoneAtAddress(list[1..], a);
    }
  }

  /** Records with equal addresses come out last filed first. */
  lemma {:induction false} FiledReverses(list: seq<Record>, r: Record, a: int)
    requires Sorted(list)
    ensures r.addr == a ==> AtAddress(Filed(list, r, true), a) == [r] + AtAddress(list, a)
    ensures r.addr != a ==> AtAddress(Filed(list, r, true), a) == AtAddress(list, a)
  {
    var p := Place(list, r, true, 0);
    PlaceBound(list, r, true, 0);
    AtAddressConcat(list[..p] + [r], list[p..], a);
    AtAddressConcat(list[..p], [r], a);
    AtAddressConcat(list[..p], list[p..], a);
    assert list == list[..p] + list[p..];
    OneAtAddress(r, a);
    if r.addr == a {
      NoneAtAddress(list[..p], a);
    }
  }

  lemma {:induction false} OneAtAddress(r: Record, a: int)
    ensures AtAddress([r], a) == if r.addr == a then [r] else []
  {
  }

  // ------------------------------------------------------------ writing

  function Be16(n: int): seq<int> {
    [n / 256 % 256, n % 256]
  }

  function Be32(n: int): seq<int> {
    [n / 16777216 % 256, n / 65536 % 256, n / 256 % 256, n % 256]
  }

  /** The room of a record of n bytes: six bytes of header, the data, and padding up to a
      multiple of four. */
  function Room(n: nat): nat {
    (n + 9) / 4 * 4
  }

  /** The number of bytes written for it: a 16-bit quantity. */
  function WriteLength(n: nat): nat {
    Room(n) % 65536
  }

  function Zeroes(n: nat): seq<int> {
    seq(n, _ => 0)
  }

  /** A record in memory, in big-endian order and with its padding. */
  function Image(r: Record): seq<int> {
    Be32(r.addr) + Be16(|r.data|) + r.data + Zeroes(Room(|r.data|) - 6 - |r.data|)
  }

  function Stored(r: Record): seq<int> {
    Image(r)[..WriteLength(|r.data|)]
  }

  /** A record is written whole exactly if it has at most 65526 bytes. */
  lemma {:induction false} StoredWhole(r: Record)
    requires |r.data| < 65536
    ensures |Image(r)| == Room(|r.data|) && |Image(r)| % 4 == 0 && 6 + |r.data| <= |Image(r)| < 10 + |r.data|
    ensures forall k :: 6 + |r.data| <= k < |Image(r)| ==> Image(r)[k] == 0
    ensures Stored(r) == Image(r) <==> |r.data| <= 65526
  {
  }

  /** The stored records. */
  function Chunks(rs: seq<Record>): seq<seq<int>> {
    seq(|rs|, j requires 0 <= j < |rs| => Stored(rs[j]))
  }

  lemma {:induction false} NextChunk(rs: seq<Record>, p: nat)
    requires p < |rs|
    ensures Flat(Chunks(rs), p + 1) == Flat(Chunks(rs), p) + Stored(rs[p])
  {
  }

  /** The stream: the stored records and an empty one. */
  ghost function Stream(rs: seq<Record>): seq<int> {
    Flat(Chunks(rs), |rs|) + Zeroes(6)
  }

  // ------------------------------------------------------------ reading

  /** Where the next record starts, counted from one with n bytes, as ihex_next_binrec
      has it. */
  function NextRecord(n: nat): nat {
    6 + (n + 5) / 4 * 4 - 2
  }

  /** What stands at a place of a stream. */
  datatype Piece = Piece(record: Record, next: nat) | Last | Torn

  function PieceAt(b: seq<int>, i: nat): Piece {
    if i + 6 > |b| then Torn
    else
      var n := b[i + 4] * 256 + b[i + 5];
      if n == 0 then Last
      else if n < 0 || i + NextRecord(n) > |b| then Torn
      else Piece(Record(((b[i] * 256 + b[i + 1]) * 256 + b[i + 2]) * 256 + b[i + 3], b[i + 6..i + 6 + n]),
                 i + NextRecord(n))
  }

  function Pieces(b: seq<int>): nat -> Piece {
    (i: nat) => PieceAt(b, i)
  }

  function Before(r: Record, rest: Option<seq<Record>>): Option<seq<Record>> {
    if rest.None? then None else Some([r] + rest.value)
  }

  /** The records from place i on, up to one without data. */
  function Collect(read: nat -> Piece, size: nat, i: nat): Option<seq<Record>>
    decreases size - i
  {
    match read(i)
    case Last => Some([])
    case Torn => None
    case Piece(r, next) => if i < next <= size then Before(r, Collect(read, size, next)) else None
  }

  /** Reads a stream back, as the kernel does. */
  function Decode(b: seq<int>): Option<seq<Record>> {
    Collect(Pieces(b), |b|, 0)
  }

  /** A record the stream can carry. */
  ghost predicate Storable(r: Record) {
    0 <= r.addr < U32 && 0 < |r.data| <= 65526
  }

  lemma {:induction false} Be32Reads(n: int)
    requires 0 <= n < U32
    ensures var b := Be32(n); ((b[0] * 256 + b[1]) * 256 + b[2]) * 256 + b[3] == n
  {
  }

  /** Address and length stand before the data. */
  lemma {:induction false} HeadReads(r: Record)
    requires Storable(r)
    ensures var c := Stored(r);
            && |c| == Room(|r.data|)
            && ((c[0] * 256 + c[1]) * 256 + c[2]) * 256 + c[3] == r.addr && c[4] * 256 + c[5] == |r.data|
  {
    StoredWhole(r);
    Be32Reads(r.addr);
    var c := Stored(r);
    assert c[..4] == Be32(r.addr) && c[4..6] == Be16(|r.data|);
    assert c[0] == c[..4][0] && c[1] == c[..4][1] && c[2] == c[..4][2] && c[3] == c[..4][3];
    assert c[4] == c[4..6][0] && c[5] == c[4..6][1];
  }

  lemma {:induction false} DataReads(r: Record, x: nat)
    requires Storable(r) && x < |r.data|
    ensures 6 + x < |Stored(r)| && Stored(r)[6 + x] == r.data[x]
  {
    StoredWhole(r);
  }

  /** Where a record is stored, it is read. */
  lemma {:induction false} StoredPiece(b: seq<int>, i: nat, r: Record)
    requires Storable(r) && Has(b, i, Stored(r))
    ensures PieceAt(b, i) == Piece(r, i + |Stored(r)|)
  {
    HeadReads(r);
    var c, n := Stored(r), |r.data|;
    assert b[i + 0] == c[0] && b[i + 1] == c[1] && b[i + 2] == c[2] && b[i + 3] == c[3];
    assert b[i + 4] == c[4] && b[i + 5] == c[5];
    forall x | 0 <= x < n ensures b[i + 6..i + 6 + n][x] == r.data[x] {
      DataReads(r, x);
      assert b[i + (6 + x)] == c[6 + x];
    }
    assert b[i + 6..i + 6 + n] == r.data;
  }

  /** At its place j, the record is read. */
  ghost predicate PieceFound(read: nat -> Piece, size: nat, rs: seq<Record>, at: seq<nat>, j: nat) {
    j < |rs| && j + 1 < |at| && at[j] < at[j + 1] <= size && read(at[j]) == Piece(rs[j], at[j + 1])
  }

  lemma {:induction false} CollectFinds(read: nat -> Piece, size: nat, rs: seq<Record>, at: seq<nat>, k: nat)
    requires k <= |rs| && |at| == |rs| + 1 && read(at[|rs|]) == Last
    requires forall j: nat :: j < |rs| ==> PieceFound(read, size, rs, at, j)
    ensures Collect(read, size, at[k]) == Some(rs[k..])
    decreases |rs| - k
  {
    if k < |rs| {
      var found := PieceFound(read, size, rs, at, k);
      assert found;
      CollectFinds(read, size, rs, at, k + 1);
      assert rs[k..] == [rs[k]] + rs[k + 1..];
    } else {
      assert rs[k..] == [];
    }
  }

  lemma {:induction false} ChunkFound(rs: seq<Record>, b: seq<int>, j: nat)
    requires b == Stream(rs) && j < |rs| && Storable(rs[j])
    ensures PieceFound(Pieces(b), |b|, rs, PieceStarts(Chunks(rs)), j)
  {
    FlatHas(Chunks(rs), j, |rs|, Zeroes(6));
    StoredPiece(b, |Flat(Chunks(rs), j)|, rs[j]);
    StoredWhole(rs[j]);
    assert |Flat(Chunks(rs), j + 1)| == |Flat(Chunks(rs), j)| + |Stored(rs[j])|;
  }

  lemma {:induction false} EndFound(b: seq<int>, i: nat)
    requires Has(b, i, Zeroes(6))
    ensures PieceAt(b, i) == Last
  {
    assert b[i + 4] == Zeroes(6)[4] && b[i + 5] == Zeroes(6)[5];
  }

  /** Reading back what was written gives the records. */
  lemma {:induction false} DecodeStream(rs: seq<Record>)
    requires forall j :: 0 <= j < |rs| ==> Storable(rs[j])
    ensures Decode(Stream(rs)) == Some(rs)
  {
    var b, at := Stream(rs), PieceStarts(Chunks(rs));
    forall j: nat | j < |rs| ensures PieceFound(Pieces(b), |b|, rs, at, j) {
      ChunkFound(rs, b, j);
    }
    EndFound(b, |Flat(Chunks(rs), |rs|)|);
    CollectFinds(Pieces(b), |b|, rs, at, 0);
    assert rs[0..] == rs && at[0] == 0;
  }
}
