/** The typed row decoder handed to every row mapper: a column-to-value map
    plus the list of read errors recorded so far. The Go accessors mutate
    that list through a pointer receiver; here each accessor returns the
    value read together with the row map after the read. */
module RowMaps {
  import opened Wrappers
  import opened Values
  import opened Params

  /** The Go type an accessor converts to, as named in a ColReadError. */
  datatype Target = TString | TInt(kind: IntKind) | TFloat(fkind: FloatKind) | TBool | TBytes

  /** The two errors an accessor records: the key is not a column of the
      row, or the stored value has the wrong shape for the accessor
      (ColReadError, carrying the key, a value and the target type name). */
  datatype ReadError =
    | KeyMissing(key: string)
    | ColRead(key: string, value: Value, target: Target)

  datatype RowMap = RowMap(m: map<string, Value>, errors: seq<ReadError>)

  /** The value an accessor returns together with the row map after it. */
  datatype Read<T> = Read(value: T, row: RowMap)

  /** A float returned by Float64 or Float32: zero, or the stored float of
      the given width and bit pattern converted to the accessor's width. The
      rounding of that conversion is not modelled. */
  datatype FloatRead = FloatZero | FloatOf(from: FloatKind, bits: nat)

  /** The column map of one scanned row, built column by column from the
      left with no error recorded. */
  function ToMap(cols: seq<string>, values: seq<Value>): (r: RowMap)
    requires |cols| <= |values|
    ensures r.errors == []
  {
    RowMap(Columns(cols, values, |cols|), [])
  }

  /** The map after the first n columns are stored. */
  function Columns(cols: seq<string>, values: seq<Value>, n: nat): map<string, Value>
    requires n <= |cols| <= |values|
    decreases n
  {
    if n == 0 then map[] else Columns(cols, values, n - 1)[cols[n - 1] := values[n - 1]]
  }

  lemma {:induction false} ColumnsKeys(cols: seq<string>, values: seq<Value>, n: nat)
    requires n <= |cols| <= |values|
    ensures Columns(cols, values, n).Keys == set i | 0 <= i < n :: cols[i]
    decreases n
  {
    if n > 0 {
      ColumnsKeys(cols, values, n - 1);
      assert (set i | 0 <= i < n :: cols[i]) == (set i | 0 <= i < n - 1 :: cols[i]) + {cols[n - 1]};
    }
  }

  lemma {:induction false} ColumnsAt(cols: seq<string>, values: seq<Value>, n: nat, i: nat)
    requires i < n <= |cols| <= |values|
    requires forall j :: i < j < n ==> cols[j] != cols[i]
    ensures cols[i] in Columns(cols, values, n) && Columns(cols, values, n)[cols[i]] == values[i]
    decreases n
  {
    if i < n - 1 {
      ColumnsAt(cols, values, n - 1, i);
    }
  }

  /** The columns are the keys, and column i maps to value i unless the
      same column name comes again later, in which case the later value
      wins. */
  lemma ToMapColumns(cols: seq<string>, values: seq<Value>)
    requires |cols| <= |values|
    ensures ToMap(cols, values).m.Keys == set c | c in cols
    ensures forall i :: IsLast(cols, i) ==> cols[i] in ToMap(cols, values).m && ToMap(cols, values).m[cols[i]] == values[i]
  {
    ColumnsKeys(cols, values, |cols|);
    assert (set i | 0 <= i < |cols| :: cols[i]) == set c | c in cols;
    forall i | IsLast(cols, i)
      ensures cols[i] in ToMap(cols, values).m && ToMap(cols, values).m[cols[i]] == values[i]
    {
      forall j | i < j < |cols|
        ensures cols[j] != cols[i]
      {
        assert cols[j] == cols[i + 1..][j - i - 1];
      }
      ColumnsAt(cols, values, |cols|, i);
    }
  }

  /** `try`: the error recorded for a key that is not a column. */
  function Try(r: RowMap, k: string): (e: Option<ReadError>)
    ensures e.None? <==> k in r.m
    ensures e.Some? ==> e.value == KeyMissing(k)
  {
    if k in r.m then None else Some(KeyMissing(k))
  }

  function AddErr(r: RowMap, e: ReadError): RowMap {
    r.(errors := r.errors + [e])
  }

  /** `Err`: the joined errors, nil when none was recorded. */
  function Err(r: RowMap): (e: Option<seq<ReadError>>)
    ensures e.None? <==> r.errors == []
    ensures e.Some? ==> e.value == r.errors
  {
    if |r.errors| == 0 then None else Some(r.errors)
  }

  // ---------------------------------------------------------------------
  // Reference definitions: which stored shapes each accessor accepts, and
  // what one read of a key records.

  /** The stored values an accessor of the target converts without error:
      only strings for String, only int8..int64 (not Go `int`, not bytes)
      for the Int accessors and for Bool, only floats for Float32/64, and
      only `[]byte` for Bytes. A Go `bool` is not accepted by Bool. */
  predicate Accepts(t: Target, v: Value) {
    match t
    case TString => v.Str?
    case TInt(_) => v.Integer? && IsSized(v.kind)
    case TFloat(_) => v.Floating?
    case TBool => v.Integer? && IsSized(v.kind)
    case TBytes => v.ByteSlice?
  }

  /** The value a ColReadError carries: the stored value for String and Bool,
      but the zero result for the numeric accessors and a nil slice for
      Bytes, since those build the error from the failed conversion's
      result. */
  function CarriedValue(t: Target, v: Value): Value {
    match t
    case TString => v
    case TInt(k) => Integer(k, 0)
    case TFloat(k) => Floating(k, 0)
    case TBool => v
    case TBytes => ByteSlice([])
  }

  /** What one read of key `k` with an accessor of target `t` records: the
      missing-key error before any shape check, else a ColReadError when the
      shape is refused, else nothing. */
  function Logged(m: map<string, Value>, k: string, t: Target): seq<ReadError> {
    if k !in m then [KeyMissing(k)]
    else if Accepts(t, m[k]) then []
    else [ColRead(k, CarriedValue(t, m[k]), t)]
  }

  /** The map is untouched and the error list grows by exactly what
      `Logged` says. */
  predicate Records(before: RowMap, after: RowMap, k: string, t: Target) {
    after.m == before.m && after.errors == before.errors + Logged(before.m, k, t)
  }

  // ---------------------------------------------------------------------
  // The accessors.

  function String(r: RowMap, k: string): (res: Read<string>)
    ensures Records(r, res.row, k, TString)
    ensures k in r.m && r.m[k].Str? ==> res.value == r.m[k].s
    ensures !(k in r.m && r.m[k].Str?) ==> res.value == ""
  {
    match Try(r, k)
    case Some(e) => Read("", AddErr(r, e))
    case None =>
      match r.m[k]
      case Str(s) => Read(s, r)
      case v => Read("", AddErr(r, ColRead(k, v, TString)))
  }

  /** `toInteger`: only the four sized signed kinds convert, by Go's
      conversion to the target width. */
  function ToInteger(target: IntKind, v: Value): (r: Option<int>)
    requires IsSized(target)
    ensures r.Some? <==> Accepts(TInt(target), v)
    ensures r.Some? ==> InRange(target, r.value) && (r.value - v.n) % Modulus(target) == 0
  {
    match v
    case Integer(k, n) => if IsSized(k) then Some(Wrap(target, n)) else None
    case _ => None
  }

  /** Int64, Int32, Int16 and Int8, by the kind they convert to. */
  function Int(r: RowMap, k: string, kind: IntKind): (res: Read<int>)
    requires IsSized(kind)
    ensures Records(r, res.row, k, TInt(kind))
    ensures InRange(kind, res.value)
    ensures k in r.m && Accepts(TInt(kind), r.m[k]) ==> res.value == Wrap(kind, r.m[k].n)
    ensures !(k in r.m && Accepts(TInt(kind), r.m[k])) ==> res.value == 0
  {
    match Try(r, k)
    case Some(e) => Read(0, AddErr(r, e))
    case None =>
      match ToInteger(kind, r.m[k])
      case Some(n) => Read(n, r)
      case None => Read(0, AddErr(r, ColRead(k, Integer(kind, 0), TInt(kind))))
  }

  /** `toFloat`: both float widths convert; nothing else does. */
  function ToFloat(v: Value): (r: Option<FloatRead>)
    ensures r.Some? <==> v.Floating?
    ensures r.Some? ==> r.value == FloatOf(v.fkind, v.bits)
  {
    match v
    case Floating(fk, bits) => Some(FloatOf(fk, bits))
    case _ => None
  }

  /** Float64 and Float32, by the width they convert to. */
  function Float(r: RowMap, k: string, kind: FloatKind): (res: Read<FloatRead>)
    ensures Records(r, res.row, k, TFloat(kind))
    ensures k in r.m && r.m[k].Floating? ==> res.value == FloatOf(r.m[k].fkind, r.m[k].bits)
    ensures !(k in r.m && r.m[k].Floating?) ==> res.value == FloatZero
  {
    match Try(r, k)
    case Some(e) => Read(FloatZero, AddErr(r, e))
    case None =>
      match ToFloat(r.m[k])
      case Some(f) => Read(f, r)
      case None => Read(FloatZero, AddErr(r, ColRead(k, Floating(kind, 0), TFloat(kind))))
  }

  /** Bool. For an int8..int64 value it returns the comparison of the
      dynamically typed value with an untyped 0, which Go types as `int`;
      an interface holding an int8..int64 never equals an `int`. */
  function Bool(r: RowMap, k: string): (res: Read<bool>)
    ensures Records(r, res.row, k, TBool)
  {
    match Try(r, k)
    case Some(e) => Read(false, AddErr(r, e))
    case None =>
      var v := r.m[k];
      if v.Integer? && IsSized(v.kind) then Read(v == Integer(GoInt, 0), r)
      else Read(false, AddErr(r, ColRead(k, v, TBool)))
  }

  function Bytes(r: RowMap, k: string): (res: Read<seq<byte>>)
    ensures Records(r, res.row, k, TBytes)
    ensures k in r.m && r.m[k].ByteSlice? ==> res.value == r.m[k].bytes
    ensures !(k in r.m && r.m[k].ByteSlice?) ==> res.value == []
  {
    match Try(r, k)
    case Some(e) => Read([], AddErr(r, e))
    case None =>
      match r.m[k]
      case ByteSlice(b) => Read(b, r)
      case _ => Read([], AddErr(r, ColRead(k, ByteSlice([]), TBytes)))
  }

  /** Bool never returns true: not for a missing key, not for a refused
      shape, and not for any integer, zero or not. */
  lemma BoolIsAlwaysFalse(r: RowMap, k: string)
    ensures !Bool(r, k).value
  {
  }

  /** An integer read is exact whenever the stored value already fits the
      target width, as when a narrower kind is sign-extended to a wider one. */
  lemma IntExactWhenInRange(r: RowMap, k: string, kind: IntKind)
    requires IsSized(kind)
    requires k in r.m && r.m[k].Integer? && IsSized(r.m[k].kind)
    requires InRange(kind, r.m[k].n)
    ensures Int(r, k, kind).value == r.m[k].n
    ensures Int(r, k, kind).row == r
  {
  }

  // ---------------------------------------------------------------------
  // A mapper's sequence of reads, and Err at the end.

  /** One accessor call of a row mapper. */
  datatype Call =
    | StringCall(key: string)
    | IntCall(key: string, kind: IntKind)
    | FloatCall(key: string, fkind: FloatKind)
    | BoolCall(key: string)
    | BytesCall(key: string)

  predicate WellFormed(c: Call) {
    c.IntCall? ==> IsSized(c.kind)
  }

  function TargetOf(c: Call): Target {
    match c
    case StringCall(_) => TString
    case IntCall(_, kind) => TInt(kind)
    case FloatCall(_, fk) => TFloat(fk)
    case BoolCall(_) => TBool
    case BytesCall(_) => TBytes
  }

  /** The row map after one call. */
  function Perform(r: RowMap, c: Call): RowMap
    requires WellFormed(c)
  {
    match c
    case StringCall(k) => String(r, k).row
    case IntCall(k, kind) => Int(r, k, kind).row
    case FloatCall(k, fk) => Float(r, k, fk).row
    case BoolCall(k) => Bool(r, k).row
    case BytesCall(k) => Bytes(r, k).row
  }

  /** The row map after a sequence of calls, in order. */
  function PerformAll(r: RowMap, cs: seq<Call>): RowMap
    requires forall i :: 0 <= i < |cs| ==> WellFormed(cs[i])
    decreases |cs|
  {
    if |cs| == 0 then r else PerformAll(Perform(r, cs[0]), cs[1..])
  }

  /** Everything a sequence of calls records, in call order. */
  function Failures(m: map<string, Value>, cs: seq<Call>): seq<ReadError>
    decreases |cs|
  {
    if |cs| == 0 then [] else Logged(m, cs[0].key, TargetOf(cs[0])) + Failures(m, cs[1..])
  }

  predicate AllAccepted(m: map<string, Value>, cs: seq<Call>) {
    forall i :: 0 <= i < |cs| ==> cs[i].key in m && Accepts(TargetOf(cs[i]), m[cs[i].key])
  }

  lemma PerformStep(r: RowMap, c: Call)
    requires WellFormed(c)
    ensures Perform(r, c).m == r.m
    ensures Perform(r, c).errors == r.errors + Logged(r.m, c.key, TargetOf(c))
  {
  }

  /** Reads never change the map, and the error list is the old one followed
      by one error per failed read, in call order. */
  lemma {:induction false} PerformAllRecords(r: RowMap, cs: seq<Call>)
    requires forall i :: 0 <= i < |cs| ==> WellFormed(cs[i])
    ensures PerformAll(r, cs).m == r.m
    ensures PerformAll(r, cs).errors == r.errors + Failures(r.m, cs)
    decreases |cs|
  {
    if |cs| > 0 {
      PerformStep(r, cs[0]);
      PerformAllRecords(Perform(r, cs[0]), cs[1..]);
    }
  }

  lemma {:induction false} FailuresEmpty(m: map<string, Value>, cs: seq<Call>)
    ensures Failures(m, cs) == [] <==> AllAccepted(m, cs)
    decreases |cs|
  {
    if |cs| > 0 {
      FailuresEmpty(m, cs[1..]);
      assert AllAccepted(m, cs) <==> (cs[0].key in m && Accepts(TargetOf(cs[0]), m[cs[0].key])) && AllAccepted(m, cs[1..]) by {
        if AllAccepted(m, cs) {
          forall i | 0 <= i < |cs| - 1
            ensures cs[1..][i].key in m && Accepts(TargetOf(cs[1..][i]), m[cs[1..][i].key])
          {
            assert cs[1..][i] == cs[i + 1];
          }
        }
        if (cs[0].key in m && Accepts(TargetOf(cs[0]), m[cs[0].key])) && AllAccepted(m, cs[1..]) {
          forall i | 0 <= i < |cs|
            ensures cs[i].key in m && Accepts(TargetOf(cs[i]), m[cs[i].key])
          {
            if i > 0 {
              assert cs[i] == cs[1..][i - 1];
            }
          }
        }
      }
    }
  }

  /** The point of the error accumulator: a mapper may read every column
      without checking anything and ask once at the end. Starting from a
      fresh row map, `Err` is nil exactly when every read found its key
      with an accepted shape; otherwise it holds one error per failed read. */
  lemma ErrAfterReads(cols: seq<string>, values: seq<Value>, cs: seq<Call>)
    requires |cols| <= |values|
    requires forall i :: 0 <= i < |cs| ==> WellFormed(cs[i])
    ensures var r := ToMap(cols, values);
            && (Err(PerformAll(r, cs)).None? <==> AllAccepted(r.m, cs))
            && PerformAll(r, cs).errors == Failures(r.m, cs)
  {
    var r := ToMap(cols, values);
    PerformAllRecords(r, cs);
    FailuresEmpty(r.m, cs);
  }

  // ---------------------------------------------------------------------
  // Apply.

  /** `Apply` as written: its guard tests the receiver instead of the error,
      and a receiver is never nil here, so the value is always dropped. */
  function Apply<T>(r: RowMap, t: Option<T>): (res: (Option<T>, Option<seq<ReadError>>))
    ensures res.0.None?
    ensures res.1 == Err(r)
  {
    (None, Err(r))
  }

  /** `Apply` as evidently intended: the value when no error was recorded,
      the joined errors otherwise. */
  function ApplyChecked<T>(r: RowMap, t: Option<T>): (res: (Option<T>, Option<seq<ReadError>>))
    ensures res.1 == Err(r)
    ensures res.1.None? ==> res.0 == t
    ensures res.1.Some? ==> res.0.None?
  {
    match Err(r)
    case Some(errs) => (None, Some(errs))
    case None => (t, None)
  }

  /** The discrepancy: on a clean row map with a value to return, `Apply`
      returns neither the value nor an error. */
  lemma ApplyDropsValue<T>(r: RowMap, t: T)
    requires r.errors == []
    ensures Apply(r, Some(t)) == (None, None)
    ensures ApplyChecked(r, Some(t)) == (Some(t), None)
  {
  }

  /** A concrete witness: a fresh row with one string column, read back
      successfully, still yields nothing through `Apply`. */
  lemma ApplyDropsValueExample()
    ensures var r := String(ToMap(["name"], [Str("Blue Train")]), "name");
            && r.value == "Blue Train"
            && Apply(r.row, Some(r.value)) == (None, None)
            && ApplyChecked(r.row, Some(r.value)) == (Some("Blue Train"), None)
  {
    ToMapColumns(["name"], [Str("Blue Train")]);
    assert IsLast(["name"], 0);
  }
}
