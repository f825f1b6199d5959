/** The few PHP value semantics the adapter relies on: byte strings, arrays
    as string-keyed maps, `isset` and the null-coalescing operator `??`. */
module Php {

  /** One octet of a PHP string. */
  type byte = x: int | 0 <= x < 256

  /** A decoded JSON value as PHP holds it. Arrays are keyed by strings; an
      integer key is represented by its decimal text, which is the key PHP
      itself folds a canonical numeric string key to. Floats are not modelled. */
  datatype Value =
    | Null
    | Bool(b: bool)
    | Int(i: int)
    | Str(s: string)
    | Arr(entries: map<string, Value>)

  /** `isset($m[$k])`: the key is present and its value is not null. */
  predicate Isset(m: map<string, Value>, k: string)
  {
    k in m && !m[k].Null?
  }

  /** `$m[$k] ?? $default` on an array: the value when it is set, otherwise
      the default, so never null when the default is not. */
  function Coalesce(m: map<string, Value>, k: string, default: Value): (r: Value)
    ensures Isset(m, k) ==> r == m[k]
    ensures !Isset(m, k) ==> r == default
    ensures r.Null? ==> default.Null?
  {
    if Isset(m, k) then m[k] else default
  }

  /** `$v[$k] ?? $default` on any value. For a value that is not an array the
      offset is never set (for the non-numeric keys this model reads), so the
      default is taken. */
  function CoalesceOffset(v: Value, k: string, default: Value): (r: Value)
    ensures v.Arr? && Isset(v.entries, k) ==> r == v.entries[k]
    ensures !(v.Arr? && Isset(v.entries, k)) ==> r == default
    ensures r.Null? ==> default.Null?
  {
    if v.Arr? then Coalesce(v.entries, k, default) else default
  }

  /** A Dafny string stands for a PHP string when every character is one byte. */
  predicate IsByteString(s: string)
  {
    forall i | 0 <= i < |s| :: s[i] as int < 256
  }

  /** The octets of a PHP string. */
  function Octets(s: string): (b: seq<byte>)
    requires IsByteString(s)
  {
    seq(|s|, i requires 0 <= i < |s| => s[i] as int)
  }
}
