/**
 * Firebase Realtime Database snapshots as the app's decoders see them: a map
 * from keys to loosely typed values, read with `hashMap[key]?.toString()`.
 */
module Snapshots {
  import opened Wrappers
  import opened Text

  /**
   * A value read from a snapshot: a string, a whole number (Firebase hands
   * integers back as `Long`), a floating-point number given by its
   * `toString()` text and its value rounded toward zero, a boolean, `null`,
   * or anything else (a nested map or list) given by its `toString()` text.
   */
  datatype Value =
    | Str(s: string)
    | Long(n: int)
    | Double(text: string, whole: int)
    | Bool(b: bool)
    | Null
    | Other(text: string)

  type Snapshot = map<string, Value>

  /** `value?.toString()`: `None` for a null value. */
  function ValueText(v: Value): (r: Option<string>)
    ensures r.None? <==> v.Null?
  {
    match v
    case Str(s) => Some(s)
    case Long(n) => Some(IntToString(n))
    case Double(text, _) => Some(text)
    case Bool(b) => Some(if b then "true" else "false")
    case Null => None
    case Other(text) => Some(text)
  }

  /** `hashMap[key]?.toString()`: `None` when the key is missing or its value is null. */
  function Field(m: Snapshot, key: string): (r: Option<string>)
    ensures r.None? <==> key !in m || m[key].Null?
  {
    if key in m then ValueText(m[key]) else None
  }

  /** `n` reduced to 32 bits, two's complement (`Long.toInt()`). */
  function WrapInt32(n: int): (r: int)
    ensures Int32Min <= r <= Int32Max
    ensures Int32Min <= n <= Int32Max ==> r == n
  {
    var m := (n - Int32Min) % 0x1_0000_0000;
    m + Int32Min
  }

  /** `n` clamped to `[lo, hi]` (`Double.toInt()` and `Double.toLong()` saturate). */
  function Clamp(n: int, lo: int, hi: int): (r: int)
    requires lo <= hi
    ensures lo <= r <= hi
    ensures lo <= n <= hi ==> r == n
    ensures n < lo ==> r == lo
    ensures n > hi ==> r == hi
  {
    if n < lo then lo else if n > hi then hi else n
  }

  function Lookup(m: Snapshot, key: string): Option<Value>
  {
    if key in m then Some(m[key]) else None
  }

  /** A string optional field as Firebase writes a nullable property: omitted when null. */
  function PutText(m: Snapshot, key: string, v: Option<string>): Snapshot
  {
    match v
    case None => m
    case Some(s) => m[key := Str(s)]
  }

  /** Writing an optional entry under another key leaves an entry alone. */
  lemma PutTextKeeps(m: Snapshot, key: string, v: Option<string>, k: string)
    requires k in m && k != key
    ensures k in PutText(m, key, v) && PutText(m, key, v)[k] == m[k]
  {
  }

  /** Writing an optional entry under another key leaves that key's field alone. */
  lemma PutTextOther(m: Snapshot, key: string, v: Option<string>, k: string)
    requires k != key
    ensures Field(PutText(m, key, v), k) == Field(m, k)
  {
  }

  /** An optional entry written under a fresh key is read back as written. */
  lemma PutTextSame(m: Snapshot, key: string, v: Option<string>)
    requires key !in m
    ensures Field(PutText(m, key, v), key) == v
  {
  }

}
