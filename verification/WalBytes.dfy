/** Log records as bytes, and replay of a log image cut anywhere
    (src/wal.rs:23-173, 352-379). */
module WalBytes {
  import opened Values
  import opened Codec

  datatype TxnOp = TxnPut(table: nat, csn: nat, row: seq<Value>) | TxnDel(table: nat, csn: nat, key: Value)

  datatype LogRecord =
    | Insert(table: nat, csn: nat, row: seq<Value>)
    | Delete(table: nat, csn: nat, key: Value)
    | Seal(table: nat, csn: nat, partId: nat)
    | Checkpoint(csn: nat)
    | Transaction(ops: seq<TxnOp>)

  predicate OpFits(op: TxnOp) {
    op.table < U32 && op.csn < U64 && (if op.TxnPut? then RowFits(op.row) else Fits(op.key))
  }

  predicate RecordFits(r: LogRecord) {
    match r
    case Insert(t, c, row) => t < U32 && c < U64 && RowFits(row)
    case Delete(t, c, key) => t < U32 && c < U64 && Fits(key)
    case Seal(t, c, id) => t < U32 && c < U64 && id < U64
    case Checkpoint(c) => c < U64
    case Transaction(ops) => |ops| < U32 && forall i :: 0 <= i < |ops| ==> OpFits(ops[i])
  }

  // ---- encoding ------------------------------------------------------------

  function EncOp(op: TxnOp): Bytes {
    Le(op.table, 4) + (Le(op.csn, 8) + (if op.TxnPut? then [1] + EncRow(op.row) else [2] + EncValue(op.key)))
  }

  function EncOps(ops: seq<TxnOp>): Bytes { if ops == [] then [] else EncOp(ops[0]) + EncOps(ops[1..]) }

  function OpCode(r: LogRecord): Byte {
    match r
    case Insert(_, _, _) => 1
    case Delete(_, _, _) => 2
    case Seal(_, _, _) => 3
    case Checkpoint(_) => 4
    case Transaction(_) => 5
  }

  function EncBody(r: LogRecord): Bytes {
    match r
    case Insert(t, c, row) => Le(t, 4) + (Le(c, 8) + EncRow(row))
    case Delete(t, c, key) => Le(t, 4) + (Le(c, 8) + EncValue(key))
    case Seal(t, c, id) => Le(t, 4) + (Le(c, 8) + Le(id, 8))
    case Checkpoint(c) => Le(c, 8)
    case Transaction(ops) => Le(|ops| % U32, 4) + EncOps(ops)
  }

  function EncRecord(r: LogRecord): Bytes { [OpCode(r)] + EncBody(r) }

  // ---- decoding ------------------------------------------------------------

  /** Table and stamp, then whatever `body` reads. */
  function DecStamped(bs: Bytes): Result<(nat, nat, Bytes)> {
    match DecUint(bs, 4)
    case Err(e) => Err(e)
    case Ok((t, r1)) =>
      match DecUint(r1, 8)
      case Err(e) => Err(e)
      case Ok((c, r2)) => Ok((t, c, r2))
  }

  function DecOp(bs: Bytes): Result<(TxnOp, Bytes)> {
    match DecStamped(bs)
    case Err(e) => Err(e)
    case Ok((t, c, rest)) =>
      match DecUint(rest, 1)
      case Err(e) => Err(e)
      case Ok((kind, r)) =>
        if kind == 1 then
          match DecRow(r) { case Err(e) => Err(e) case Ok((row, r')) => Ok((TxnPut(t, c, row), r')) }
        else if kind == 2 then
          match DecValue(r) { case Err(e) => Err(e) case Ok((key, r')) => Ok((TxnDel(t, c, key), r')) }
        else Err(Malformed)
  }

  function DecOps(bs: Bytes, n: nat): Result<(seq<TxnOp>, Bytes)>
    decreases n
  {
    if n == 0 then Ok(([], bs))
    else
      match DecOp(bs)
      case Err(e) => Err(e)
      case Ok((op, rest)) =>
        match DecOps(rest, n - 1)
        case Err(e) => Err(e)
        case Ok((ops, rest')) => Ok(([op] + ops, rest'))
  }

  function DecBody(code: nat, bs: Bytes): Result<(LogRecord, Bytes)> {
    if code == 4 then
      match DecUint(bs, 8) { case Err(e) => Err(e) case Ok((c, r)) => Ok((Checkpoint(c), r)) }
    else if code == 5 then
      match DecUint(bs, 4)
      case Err(e) => Err(e)
      case Ok((n, r)) =>
        match DecOps(r, n) { case Err(e) => Err(e) case Ok((ops, r')) => Ok((Transaction(ops), r')) }
    else if code == 1 || code == 2 || code == 3 then
      match DecStamped(bs)
      case Err(e) => Err(e)
      case Ok((t, c, rest)) =>
        if code == 1 then
          match DecRow(rest) { case Err(e) => Err(e) case Ok((row, r)) => Ok((Insert(t, c, row), r)) }
        else if code == 2 then
          match DecValue(rest) { case Err(e) => Err(e) case Ok((key, r)) => Ok((Delete(t, c, key), r)) }
        else
          match DecUint(rest, 8) { case Err(e) => Err(e) case Ok((id, r)) => Ok((Seal(t, c, id), r)) }
    else Err(Malformed)
  }

  function DecRecord(bs: Bytes): Result<(LogRecord, Bytes)> {
    match DecUint(bs, 1)
    case Err(e) => Err(e)
    case Ok((code, rest)) => DecBody(code, rest)
  }

  // ---- round trips ---------------------------------------------------------

  lemma {:induction false} StampedTrip(t: nat, c: nat, rest: Bytes)
    requires t < U32 && c < U64
    ensures DecStamped(Le(t, 4) + (Le(c, 8) + rest)) == Ok((t, c, rest))
  {
    hide DecUint;
    hide Le;
    Widths();
    DecUintTrip(t, 4, Le(c, 8) + rest);
    DecUintTrip(c, 8, rest);
  }

  lemma {:induction false} OpTrip(op: TxnOp, rest: Bytes)
    requires OpFits(op)
    ensures DecOp(EncOp(op) + rest) == Ok((op, rest))
  {
    hide DecUint;
    hide DecStamped;
    hide Le;
    hide DecRow;
    hide DecValue;
    hide EncRow;
    hide EncValue;
    hide Fits;
    hide RowFits;
    var tail := if op.TxnPut? then [1] + (EncRow(op.row) + rest) else [2] + (EncValue(op.key) + rest);
    assert EncOp(op) + rest == Le(op.table, 4) + (Le(op.csn, 8) + tail);
    StampedTrip(op.table, op.csn, tail);
    if op.TxnPut? {
      DecTag(1, EncRow(op.row) + rest);
      FittingRowTrip(op.row, rest);
    } else {
      DecTag(2, EncValue(op.key) + rest);
      FittingValueTrip(op.key, rest);
    }
  }

  lemma {:induction false} OpsTrip(ops: seq<TxnOp>, rest: Bytes)
    requires forall i :: 0 <= i < |ops| ==> OpFits(ops[i])
    ensures DecOps(EncOps(ops) + rest, |ops|) == Ok((ops, rest))
    decreases |ops|
  {
    hide DecOp;
    hide EncOp;
    hide OpFits;
    if ops == [] {
      assert EncOps(ops) + rest == rest;
    } else {
      OpsTrip(ops[1..], rest);
      OpTrip(ops[0], EncOps(ops[1..]) + rest);
      assert EncOps(ops) + rest == EncOp(ops[0]) + (EncOps(ops[1..]) + rest);
      assert [ops[0]] + ops[1..] == ops;
    }
  }

  lemma {:induction false} TransactionTrip(ops: seq<TxnOp>, rest: Bytes)
    requires RecordFits(Transaction(ops))
    ensures DecBody(5, (Le(|ops| % U32, 4) + EncOps(ops)) + rest) == Ok((Transaction(ops), rest))
  {
    hide DecUint;
    hide DecStamped;
    hide Le;
    hide EncOps;
    hide DecOps;
    hide OpFits;
    Widths();
    var body := EncOps(ops) + rest;
    assert (Le(|ops| % U32, 4) + EncOps(ops)) + rest == Le(|ops|, 4) + body;
    DecUintTrip(|ops|, 4, body);
    OpsTrip(ops, rest);
  }

  lemma {:induction false} StampedBodyTrip(r: LogRecord, rest: Bytes)
    requires RecordFits(r) && (r.Insert? || r.Delete? || r.Seal?)
    ensures DecBody(OpCode(r), EncBody(r) + rest) == Ok((r, rest))
  {
    hide DecUint;
    hide DecStamped;
    hide Le;
    hide DecRow;
    hide DecValue;
    hide EncRow;
    hide EncValue;
    hide Fits;
    hide RowFits;
    Widths();
    var last :=
      match r
      case Insert(_, _, row) => EncRow(row)
      case Delete(_, _, key) => EncValue(key)
      case Seal(_, _, id) => Le(id, 8)
      case _ => [];
    assert EncBody(r) + rest == Le(r.table, 4) + (Le(r.csn, 8) + (last + rest));
    StampedTrip(r.table, r.csn, last + rest);
    match r
    case Insert(_, _, row) => FittingRowTrip(row, rest);
    case Delete(_, _, key) => FittingValueTrip(key, rest);
    case Seal(_, _, id) => DecUintTrip(id, 8, rest);
  }

  lemma {:induction false} FittingRecordTrip(r: LogRecord, rest: Bytes)
    requires RecordFits(r)
    ensures DecRecord(EncRecord(r) + rest) == Ok((r, rest))
  {
    hide DecUint;
    hide Le;
    hide EncRow;
    hide EncValue;
    hide EncOps;
    hide DecBody;
    hide RecordFits;
    assert EncRecord(r) + rest == [OpCode(r)] + (EncBody(r) + rest);
    DecTag(OpCode(r), EncBody(r) + rest);
    match r
    case Transaction(ops) => TransactionTrip(ops, rest);
    case Checkpoint(c) => CheckpointTrip(c, rest);
    case _ => StampedBodyTrip(r, rest);
  }

  lemma {:induction false} CheckpointTrip(c: nat, rest: Bytes)
    requires RecordFits(Checkpoint(c))
    ensures DecBody(4, Le(c, 8) + rest) == Ok((Checkpoint(c), rest))
  {
    hide DecUint;
    hide Le;
    hide Pow256;
    Widths();
    DecUintTrip(c, 8, rest);
  }

  lemma {:induction false} DecStampedFits(bs: Bytes)
    ensures DecStamped(bs).Ok? ==> DecStamped(bs).value.0 < U32 && DecStamped(bs).value.1 < U64
  {
    hide DecUint;
    hide Pow256;
    Widths();
    DecUintFits(bs, 4);
    if DecUint(bs, 4).Ok? { DecUintFits(DecUint(bs, 4).value.1, 8); }
  }

  lemma {:induction false} DecOpFits(bs: Bytes)
    ensures DecOp(bs).Ok? ==> OpFits(DecOp(bs).value.0)
  {
    hide DecUint;
    hide DecStamped;
    hide DecRow;
    hide DecValue;
    hide RowFits;
    hide Fits;
    DecStampedFits(bs);
    if DecStamped(bs).Ok? {
      var rest := DecStamped(bs).value.2;
      if DecUint(rest, 1).Ok? {
        DecRowFits(DecUint(rest, 1).value.1);
        DecValueFits(DecUint(rest, 1).value.1);
      }
    }
  }

  lemma {:induction false} DecOpsFit(bs: Bytes, n: nat)
    ensures DecOps(bs, n).Ok? ==> |DecOps(bs, n).value.0| == n && forall i :: 0 <= i < n ==> OpFits(DecOps(bs, n).value.0[i])
    decreases n
  {
    hide DecOp;
    hide OpFits;
    if n > 0 && DecOp(bs).Ok? {
      DecOpFits(bs);
      DecOpsFit(DecOp(bs).value.1, n - 1);
    }
  }

  lemma {:induction false} DecBodyFits(code: nat, bs: Bytes)
    ensures DecBody(code, bs).Ok? ==> RecordFits(DecBody(code, bs).value.0)
  {
    hide DecUint;
    hide DecStamped;
    hide DecRow;
    hide DecValue;
    hide DecOps;
    hide OpFits;
    hide RowFits;
    hide Fits;
    hide Pow256;
    Widths();
    if code == 4 {
      DecUintFits(bs, 8);
    } else if code == 5 {
      DecUintFits(bs, 4);
      if DecUint(bs, 4).Ok? { DecOpsFit(DecUint(bs, 4).value.1, DecUint(bs, 4).value.0); }
    } else {
      DecStampedFits(bs);
      if DecStamped(bs).Ok? {
        var rest := DecStamped(bs).value.2;
        DecRowFits(rest);
        DecValueFits(rest);
        DecUintFits(rest, 8);
      }
    }
  }

  /** Every record decodes back to itself, leaving exactly what followed it, if and
      only if it fits. */
  lemma {:induction false} RecordTrip(r: LogRecord, rest: Bytes)
    ensures DecRecord(EncRecord(r) + rest) == Ok((r, rest)) <==> RecordFits(r)
  {
    var bs := EncRecord(r) + rest;
    if RecordFits(r) {
      FittingRecordTrip(r, rest);
    } else if DecUint(bs, 1).Ok? {
      DecBodyFits(DecUint(bs, 1).value.0, DecUint(bs, 1).value.1);
    }
    hide EncRecord;
    hide DecUint;
    hide DecBody;
    hide RecordFits;
  }

  // ---- bytes behind --------------------------------------------------------

  lemma {:induction false} DecStampedMore(bs: Bytes, more: Bytes)
    requires DecStamped(bs).Ok?
    ensures DecStamped(bs + more) == Ok((DecStamped(bs).value.0, DecStamped(bs).value.1, DecStamped(bs).value.2 + more))
  {
    hide DecUint;
    DecUintMore(bs, 4, more);
    DecUintMore(DecUint(bs, 4).value.1, 8, more);
  }

  lemma {:induction false} DecOpMore(bs: Bytes, more: Bytes)
    requires DecOp(bs).Ok?
    ensures DecOp(bs + more) == Ok((DecOp(bs).value.0, DecOp(bs).value.1 + more))
  {
    hide DecUint;
    hide DecStamped;
    hide DecRow;
    hide DecValue;
    DecStampedMore(bs, more);
    var rest := DecStamped(bs).value.2;
    DecUintMore(rest, 1, more);
    var (kind, r) := DecUint(rest, 1).value;
    if kind == 1 { DecRowMore(r, more); } else { DecValueMore(r, more); }
  }

  lemma {:induction false} DecOpsMore(bs: Bytes, n: nat, more: Bytes)
    requires DecOps(bs, n).Ok?
    ensures DecOps(bs + more, n) == Ok((DecOps(bs, n).value.0, DecOps(bs, n).value.1 + more))
    decreases n
  {
    hide DecOp;
    if n > 0 {
      DecOpMore(bs, more);
      DecOpsMore(DecOp(bs).value.1, n - 1, more);
    }
  }

  lemma {:induction false} DecBodyMore(code: nat, bs: Bytes, more: Bytes)
    requires DecBody(code, bs).Ok?
    ensures DecBody(code, bs + more) == Ok((DecBody(code, bs).value.0, DecBody(code, bs).value.1 + more))
  {
    hide DecUint;
    hide DecStamped;
    hide DecRow;
    hide DecValue;
    hide DecOps;
    if code == 4 {
      DecUintMore(bs, 8, more);
    } else if code == 5 {
      DecUintMore(bs, 4, more);
      DecOpsMore(DecUint(bs, 4).value.1, DecUint(bs, 4).value.0, more);
    } else {
      DecStampedMore(bs, more);
      var rest := DecStamped(bs).value.2;
      if code == 1 { DecRowMore(rest, more); } else if code == 2 { DecValueMore(rest, more); } else { DecUintMore(rest, 8, more); }
    }
  }

  lemma {:induction false} DecRecordMore(bs: Bytes, more: Bytes)
    requires DecRecord(bs).Ok?
    ensures DecRecord(bs + more) == Ok((DecRecord(bs).value.0, DecRecord(bs).value.1 + more))
  {
    hide DecUint;
    hide DecBody;
    DecUintMore(bs, 1, more);
    DecBodyMore(DecUint(bs, 1).value.0, DecUint(bs, 1).value.1, more);
  }

  /** No proper prefix of a record's encoding decodes to the record. */
  lemma {:induction false} PrefixDiffers(r: LogRecord, k: nat)
    requires k < |EncRecord(r)| && DecRecord(EncRecord(r)[..k]).Ok?
    ensures DecRecord(EncRecord(r)[..k]).value.0 != r
  {
    var (bs, more) := (EncRecord(r)[..k], EncRecord(r)[k..]);
    DecRecordMore(bs, more);
    RecordTrip(r, []);
    assert bs + more == EncRecord(r) == EncRecord(r) + [];
    DecUintThenBody(bs);
    hide EncRecord;
    hide DecRecord;
    hide RecordFits;
  }

  lemma {:induction false} DecUintThenBody(bs: Bytes)
    requires DecRecord(bs).Ok?
    ensures RecordFits(DecRecord(bs).value.0)
  {
    DecBodyFits(DecUint(bs, 1).value.0, DecUint(bs, 1).value.1);
    hide DecUint;
    hide DecBody;
    hide RecordFits;
  }

  // ---- replay --------------------------------------------------------------

  datatype Replayed = Replayed(records: seq<LogRecord>, validBytes: nat, truncatedTail: bool)

  /** One record off the front of a log image, with its length in bytes. */
  function Next(bs: Bytes): (r: Result<(LogRecord, nat)>)
    ensures r.Ok? ==> 8 <= r.value.1 <= |bs|
  {
    match Unframe(bs)
    case Err(e) => Err(e)
    case Ok((payload, rest)) =>
      match DecRecord(payload)
      case Err(e) => Err(e)
      case Ok((rec, _)) => Ok((rec, |bs| - |rest|))
  }

  function ReplayOf(bs: Bytes): (r: Replayed)
    ensures r.validBytes <= |bs|
    decreases |bs|
  {
    if bs == [] then Replayed([], 0, false)
    else
      match Next(bs)
      case Err(_) => Replayed([], 0, true)
      case Ok((rec, n)) =>
        var r := ReplayOf(bs[n..]);
        Replayed([rec] + r.records, n + r.validBytes, r.truncatedTail)
  }

  /** The cursor loop: every intact record up to the first bad one. */
  method ReplayBytes(buf: Bytes) returns (r: Replayed)
    ensures r == ReplayOf(buf)
  {
    hide Next;
    var records: seq<LogRecord>, pos: nat, truncated := [], 0, false;
    assert buf[0..] == buf;
    while pos < |buf|
      invariant pos <= |buf|
      invariant !truncated
      invariant ReplayOf(buf) == Replayed(records + ReplayOf(buf[pos..]).records, pos + ReplayOf(buf[pos..]).validBytes, ReplayOf(buf[pos..]).truncatedTail)
    {
      var next := Next(buf[pos..]);
      if next.Err? {
        truncated := true;
        break;
      }
      assert buf[pos..][next.value.1..] == buf[pos + next.value.1..];
      records, pos := records + [next.value.0], pos + next.value.1;
    }
    r := Replayed(records, pos, truncated);
  }

  /** A log: each record framed, one after the other. */
  function LogOf(rs: seq<LogRecord>): Bytes {
    if rs == [] then [] else Frame(EncRecord(rs[0])) + LogOf(rs[1..])
  }

  predicate Loggable(r: LogRecord) { RecordFits(r) && |EncRecord(r)| < U32 }

  lemma {:induction false} NextTrip(r: LogRecord, rest: Bytes)
    requires Loggable(r)
    ensures Next(Frame(EncRecord(r)) + rest) == Ok((r, |Frame(EncRecord(r))|))
  {
    FrameSize(EncRecord(r));
    FrameTrip(EncRecord(r), rest);
    FittingRecordTrip(r, []);
    assert EncRecord(r) + [] == EncRecord(r);
    hide Unframe;
    hide Frame;
    hide EncRecord;
    hide DecRecord;
  }

  lemma {:induction false} NextCut(r: LogRecord, k: nat)
    requires Loggable(r) && k < |Frame(EncRecord(r))|
    ensures Next(Frame(EncRecord(r))[..k]) == Err(Truncated)
  {
    CutTruncated(EncRecord(r), k);
  }

  /** How many whole frames fit in the first `cut` bytes of the log. */
  function Whole(rs: seq<LogRecord>, cut: nat): (n: nat)
    ensures n <= |rs|
  {
    if rs == [] || cut < |Frame(EncRecord(rs[0]))| then 0
    else 1 + Whole(rs[1..], cut - |Frame(EncRecord(rs[0]))|)
  }

  /** That count is what it says: those frames end within the cut, the next does not. */
  lemma {:induction false} WholeFits(rs: seq<LogRecord>, cut: nat)
    ensures |LogOf(rs[..Whole(rs, cut)])| <= cut
    ensures Whole(rs, cut) < |rs| ==> cut < |LogOf(rs[..Whole(rs, cut) + 1])|
    decreases |rs|
  {
    hide Frame;
    hide EncRecord;
    if rs != [] {
      var f := |Frame(EncRecord(rs[0]))|;
      if cut >= f {
        WholeFits(rs[1..], cut - f);
        var n := Whole(rs[1..], cut - f);
        assert rs[..n+1][1..] == rs[1..][..n];
        if n < |rs| - 1 { assert rs[..n+2][1..] == rs[1..][..n+1]; }
      } else {
        assert rs[..1][1..] == [];
      }
    }
  }

  /** Cut at `cut`, the log replays to exactly the records whose frames fit whole, and
      a torn tail is reported exactly when the cut is off a frame boundary. */
  ghost predicate CutReplays(rs: seq<LogRecord>, cut: nat)
    requires cut <= |LogOf(rs)|
  {
    var (r, n) := (ReplayOf(LogOf(rs)[..cut]), Whole(rs, cut));
    && r.records == rs[..n] && r.validBytes == |LogOf(rs[..n])|
    && (r.truncatedTail <==> cut != |LogOf(rs[..n])|)
  }

  /** A log of whatever records replays right when cut at any byte, if and only if
      every record fits its fields and its encoding is shorter than 4 GiB. */
  lemma {:induction false} ReplayCut(rs: seq<LogRecord>)
    ensures (forall cut: nat :: cut <= |LogOf(rs)| ==> CutReplays(rs, cut)) <==> forall i :: 0 <= i < |rs| ==> Loggable(rs[i])
  {
    hide LogOf;
    hide Loggable;
    hide CutReplays;
    if forall i :: 0 <= i < |rs| ==> Loggable(rs[i]) {
      forall cut: nat | cut <= |LogOf(rs)| ensures CutReplays(rs, cut) { LoggableCut(rs, cut); }
    } else {
      var i :| 0 <= i < |rs| && !Loggable(rs[i]);
      FullCutFails(rs, i);
    }
  }

  lemma {:induction false} FullCutFails(rs: seq<LogRecord>, i: nat)
    requires i < |rs| && !Loggable(rs[i])
    ensures !CutReplays(rs, |LogOf(rs)|)
  {
    hide Loggable;
    hide LogOf;
    hide ReplayOf;
    WholeAll(rs);
    NeverWhole(rs, i);
    hide Whole;
    assert LogOf(rs)[..|LogOf(rs)|] == LogOf(rs) && rs[..|rs|] == rs;
  }

  lemma {:induction false} WholeAll(rs: seq<LogRecord>)
    ensures Whole(rs, |LogOf(rs)|) == |rs|
  {
    hide Frame;
    hide EncRecord;
    if rs != [] { WholeAll(rs[1..]); }
  }

  /** A log holding a record that is not loggable does not replay to what was logged. */
  lemma {:induction false} NeverWhole(rs: seq<LogRecord>, i: nat)
    requires i < |rs| && !Loggable(rs[i])
    ensures ReplayOf(LogOf(rs)).records != rs
    decreases |rs|
  {
    hide Frame;
    hide EncRecord;
    hide Next;
    hide Loggable;
    var rest := LogOf(rs[1..]);
    var bs := Frame(EncRecord(rs[0])) + rest;
    FrameSize(EncRecord(rs[0]));
    if Loggable(rs[0]) {
      NextTrip(rs[0], rest);
      assert bs[|Frame(EncRecord(rs[0]))|..] == rest;
      NeverWhole(rs[1..], i - 1);
    } else {
      NextDiffers(rs[0], rest);
    }
  }

  lemma {:induction false} NextDiffers(r: LogRecord, rest: Bytes)
    requires !Loggable(r)
    ensures Next(Frame(EncRecord(r)) + rest).Ok? ==> Next(Frame(EncRecord(r)) + rest).value.0 != r
  {
    FrameTrip(EncRecord(r), rest);
    var u := Unframe(Frame(EncRecord(r)) + rest);
    if u.Ok? && DecRecord(u.value.0).Ok? {
      DecUintThenBody(u.value.0);
      if |EncRecord(r)| >= U32 { PrefixDiffers(r, |EncRecord(r)| % U32); }
    }
    hide Unframe;
    hide Frame;
    hide EncRecord;
    hide DecRecord;
    hide RecordFits;
  }

  lemma {:induction false} LoggableCut(rs: seq<LogRecord>, cut: nat)
    requires (forall i :: 0 <= i < |rs| ==> Loggable(rs[i])) && cut <= |LogOf(rs)|
    ensures CutReplays(rs, cut)
    decreases |rs|
  {
    hide Frame;
    hide EncRecord;
    hide Next;
    hide RecordFits;
    var bs := LogOf(rs)[..cut];
    if rs != [] { FrameSize(EncRecord(rs[0])); }
    if rs != [] && cut > 0 {
      var f := Frame(EncRecord(rs[0]));
      if cut < |f| {
        assert bs == f[..cut];
        NextCut(rs[0], cut);
      } else {
        var rest := LogOf(rs[1..])[..cut - |f|];
        assert bs == f + rest;
        NextTrip(rs[0], rest);
        assert bs[|f|..] == rest;
        LoggableCut(rs[1..], cut - |f|);
        var n := Whole(rs[1..], cut - |f|);
        assert rs[..n+1][1..] == rs[1..][..n] && rs[..n+1] == [rs[0]] + rs[1..][..n];
      }
    }
  }

  // ---- any bytes whatever --------------------------------------------------

  lemma {:induction false} NextPrefix(bs: Bytes, m: nat)
    requires Next(bs).Ok? && Next(bs).value.1 <= m <= |bs|
    ensures Next(bs[..m]) == Next(bs)
  {
    UnframePrefix(bs, m);
    hide Unframe;
    hide DecRecord;
  }

  /** Whatever the image holds, its valid prefix replays to the same records and
      has no torn tail: replay of a repaired log is replay of the log. */
  lemma {:induction false} ValidPrefixReplays(bs: Bytes)
    ensures var r := ReplayOf(bs); ReplayOf(bs[..r.validBytes]) == Replayed(r.records, r.validBytes, false)
    ensures ReplayOf(bs).truncatedTail <==> ReplayOf(bs).validBytes < |bs|
    decreases |bs|
  {
    hide Next;
    if bs != [] && Next(bs).Ok? {
      var n := Next(bs).value.1;
      ValidPrefixReplays(bs[n..]);
      var v := ReplayOf(bs[n..]).validBytes;
      NextPrefix(bs, n + v);
      assert bs[..n + v][n..] == bs[n..][..v];
    }
  }
}
