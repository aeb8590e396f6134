/**
 * Command-line values (sineserver.c:432-462): the numeric options clamped to
 * their ranges, and the lookup of the transfer method by name.
 *
 * Each numeric option arrives as the `int` that atoi returned for it. rate,
 * channels, buffer_time and period_time are `unsigned int` variables, so a
 * negative value is first converted modulo 2^32 and the comparisons are
 * unsigned; the frequency (a double holding an integer) and the port (an int)
 * are compared as signed values.
 */
module Options {

  const IntMin: int := -0x8000_0000
  const IntMax: int := 0x7FFF_FFFF
  const UIntRange: int := 0x1_0000_0000

  /** Values an `int` can hold. */
  predicate IsInt(v: int) {
    IntMin <= v <= IntMax
  }

  /** The `unsigned int` an `int` becomes on assignment. */
  function ToUnsigned(v: int): (u: nat)
    requires IsInt(v)
    ensures u < UIntRange
    ensures u % UIntRange == v % UIntRange
  {
    if v < 0 then v + UIntRange else v
  }

  /** `x = v; x = x < lo ? lo : x; x = x > hi ? hi : x;` for an unsigned `x`. */
  function ClampUnsigned(v: int, lo: nat, hi: nat): (r: nat)
    requires IsInt(v) && lo <= hi <= IntMax
    ensures lo <= r <= hi
    ensures lo <= v <= hi ==> r == v
    ensures 0 <= v < lo ==> r == lo
    ensures v > hi || v < 0 ==> r == hi
  {
    var x := ToUnsigned(v);
    var x := if x < lo then lo else x;
    if x > hi then hi else x
  }

  /** The same two statements for a signed `x`. */
  function ClampSigned(v: int, lo: int, hi: int): (r: int)
    requires lo <= hi
    ensures lo <= r <= hi
    ensures lo <= v <= hi ==> r == v
    ensures v < lo ==> r == lo
    ensures v > hi ==> r == hi
  {
    var x := if v < lo then lo else v;
    if x > hi then hi else x
  }

  /** Clamping twice changes nothing more. */
  lemma ClampUnsignedIdempotent(v: int, lo: nat, hi: nat)
    requires IsInt(v) && lo <= hi <= IntMax
    ensures ClampUnsigned(ClampUnsigned(v, lo, hi), lo, hi) == ClampUnsigned(v, lo, hi)
  {
  }

  lemma ClampSignedIdempotent(v: int, lo: int, hi: int)
    requires lo <= hi
    ensures ClampSigned(ClampSigned(v, lo, hi), lo, hi) == ClampSigned(v, lo, hi)
  {
  }

  /** An unsigned clamp only differs from a signed one on negative values, which
      wrap to a large unsigned value and end up at the upper bound. */
  lemma UnsignedDiffersOnlyOnNegatives(v: int, lo: nat, hi: nat)
    requires IsInt(v) && lo <= hi <= IntMax
    ensures ClampUnsigned(v, lo, hi) == ClampSigned(v, lo, hi) <==> v >= 0 || lo == hi
  {
  }

  /** MIN_PORT and MAX_PORT (sineserver.h:22-23). */
  const MinPort: int := 1024
  const MaxPort: int := 65535

  function Rate(v: int): (r: nat)
    requires IsInt(v)
    ensures 4000 <= r <= 196000
  {
    ClampUnsigned(v, 4000, 196000)
  }

  function Channels(v: int): (r: nat)
    requires IsInt(v)
    ensures 1 <= r <= 1024
  {
    ClampUnsigned(v, 1, 1024)
  }

  function Frequency(v: int): (r: int)
    ensures 50 <= r <= 5000
  {
    ClampSigned(v, 50, 5000)
  }

  /** The buffer time and the period time, both in microseconds. */
  function Microseconds(v: int): (r: nat)
    requires IsInt(v)
    ensures 1000 <= r <= 1000000
  {
    ClampUnsigned(v, 1000, 1000000)
  }

  function Port(v: int): (r: int)
    ensures MinPort <= r <= MaxPort
  {
    ClampSigned(v, MinPort, MaxPort)
  }

  /** `-r -1` asks for the highest rate, `-f -1` for the lowest frequency. */
  lemma NegativeOptions()
    ensures Rate(-1) == 196000 && Channels(-1) == 1024
    ensures Frequency(-1) == 50 && Port(-1) == MinPort
  {
  }

  /** The names of transfer_methods[] (sineserver.c:349-353), in order. */
  const TransferMethods: seq<string> := ["multicast", "unicast", "write"]

  /** ASCII tolower. */
  function Lower(c: char): (r: char)
    ensures !('A' <= r <= 'Z')
    ensures 'a' <= r <= 'z' <==> 'A' <= c <= 'Z' || 'a' <= c <= 'z'
  {
    if 'A' <= c <= 'Z' then (c as int + 32) as char else c
  }

  /** `strcasecmp(a, b) == 0`. */
  predicate SameIgnoringCase(a: string, b: string) {
    |a| == |b| && forall i :: 0 <= i < |a| ==> Lower(a[i]) == Lower(b[i])
  }

  /** Equality up to case is an equivalence: reflexive, symmetric and
      transitive, as a comparison of lower-cased strings must be. */
  lemma SameIgnoringCaseIsEquivalence(a: string, b: string, c: string)
    ensures SameIgnoringCase(a, a)
    ensures SameIgnoringCase(a, b) ==> SameIgnoringCase(b, a)
    ensures SameIgnoringCase(a, b) && SameIgnoringCase(b, c) ==> SameIgnoringCase(a, c)
  {
  }

  /** No argument matches two transfer methods: their names differ in length. */
  lemma TransferMethodsDistinct(i: nat, j: nat, name: string)
    requires i < j < |TransferMethods|
    ensures !(SameIgnoringCase(TransferMethods[i], name) && SameIgnoringCase(TransferMethods[j], name))
  {
    assert |TransferMethods[i]| != |TransferMethods[j]|;
  }

  /** The `-m` option: the index of the transfer method whose name equals the
      argument up to case, and 0 (multicast) when none does. */
  method LookupTransferMethod(name: string) returns (index: nat)
    ensures index < |TransferMethods|
    ensures forall i :: 0 <= i < |TransferMethods| && SameIgnoringCase(TransferMethods[i], name) ==> index == i
    ensures (forall i :: 0 <= i < |TransferMethods| ==> !SameIgnoringCase(TransferMethods[i], name)) ==> index == 0
  {
    index := 0;
    while index < |TransferMethods|
      invariant index <= |TransferMethods|
      invariant forall i :: 0 <= i < index ==> !SameIgnoringCase(TransferMethods[i], name)
    {
      if SameIgnoringCase(TransferMethods[index], name) {
        forall i | index < i < |TransferMethods|
          ensures !SameIgnoringCase(TransferMethods[i], name)
        {
          TransferMethodsDistinct(index, i, name);
        }
        return;
      }
      index := index + 1;
    }
    index := 0;
  }
}
