/** Bytes, C strings and small helpers shared by the models of the user programs. */
module Bytes {

  /** An `unsigned char`. */
  type Byte = x: int | 0 <= x < 256

  /** The bytes of a C string before its terminator contain no NUL. */
  predicate CString(s: seq<Byte>) {
    forall i :: 0 <= i < |s| ==> s[i] != 0
  }

  /** Reading `*(s + i)`: the terminator sits just behind the last byte. */
  function At(s: seq<Byte>, i: nat): Byte {
    if i < |s| then s[i] else 0
  }

  predicate IsUpper(c: int) { 'A' as int <= c <= 'Z' as int }
  predicate IsLower(c: int) { 'a' as int <= c <= 'z' as int }
  predicate IsDigit(c: int) { '0' as int <= c <= '9' as int }

  function ToLower(c: Byte): Byte {
    if IsUpper(c) then c + 32 else c
  }

  datatype Option<+T> = None | Some(value: T)

  function Min(a: int, b: int): int { if a <= b then a else b }
  function Max(a: int, b: int): int { if a <= b then b else a }

  /** All bytes of a list of pieces. */
  function Concat(pieces: seq<seq<Byte>>): seq<Byte> {
    if pieces == [] then [] else pieces[0] + Concat(pieces[1..])
  }

  // ----- sequences inside sequences -----

  /** `t` stands at position `i` of `s`. */
  ghost predicate Stands<T>(s: seq<T>, i: nat, t: seq<T>) {
    i + |t| <= |s| && forall k :: 0 <= k < |t| ==> s[i + k] == t[k]
  }

  lemma {:induction false} StandsAt<T>(s: seq<T>, i: nat, t: seq<T>, k: nat)
    requires Stands(s, i, t) && k < |t|
    ensures i + k < |s| && s[i + k] == t[k]
  {}

  lemma {:induction false} StandsSplit<T>(s: seq<T>, i: nat, a: seq<T>, b: seq<T>)
    requires Stands(s, i, a + b)
    ensures Stands(s, i, a) && Stands(s, i + |a|, b)
  {
    forall k | 0 <= k < |a| ensures s[i + k] == a[k] { assert (a + b)[k] == a[k]; }
    forall k | 0 <= k < |b| ensures s[i + |a| + k] == b[k] { assert (a + b)[|a| + k] == b[k]; }
  }

  lemma {:induction false} StandsSlice<T>(s: seq<T>, i: nat, t: seq<T>)
    requires Stands(s, i, t)
    ensures s[i..i + |t|] == t
  {
    forall k | 0 <= k < |t| ensures s[i..i + |t|][k] == t[k] { StandsAt(s, i, t, k); }
  }
}
