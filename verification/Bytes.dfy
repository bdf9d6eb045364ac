/** Bytes, byte strings and the two relations every other module needs on them:
    "this string stands at that place of a buffer" and the order of `std::string`;
    and what several modules need besides: the widths of integers, options. */
module Bytes {

  type byte = b: int | 0 <= b < 256

  /** A `std::string`: bytes, with no encoding attached. */
  type Text = seq<byte>

  const TWO32: int := 0x1_0000_0000
  const TWO63: int := 0x8000_0000_0000_0000
  const TWO64: int := 0x1_0000_0000_0000_0000

  type u64 = n: int | 0 <= n < 0x1_0000_0000_0000_0000
  type i64 = n: int | -0x8000_0000_0000_0000 <= n < 0x8000_0000_0000_0000

  datatype Option<+T> = None | Some(value: T)

  lemma Assoc<T>(a: seq<T>, b: seq<T>, c: seq<T>)
    ensures (a + b) + c == a + (b + c)
  {
  }

  /** `s` stands in `buf` starting at `pos`. */
  predicate At(buf: seq<byte>, pos: nat, s: seq<byte>) {
    pos + |s| <= |buf| && forall i :: 0 <= i < |s| ==> s[i] == buf[pos + i]
  }

  lemma AtConcat(buf: seq<byte>, pos: nat, a: seq<byte>, b: seq<byte>)
    ensures At(buf, pos, a + b) <==> At(buf, pos, a) && At(buf, pos + |a|, b)
  {
    var s := a + b;
    if At(buf, pos, s) {
      forall i | 0 <= i < |a| ensures a[i] == buf[pos + i] { assert s[i] == a[i]; }
      forall i | 0 <= i < |b| ensures b[i] == buf[pos + |a| + i] { assert s[|a| + i] == b[i]; }
    }
  }

  lemma AtSlice(buf: seq<byte>, pos: nat, s: seq<byte>)
    requires At(buf, pos, s)
    ensures buf[pos..pos + |s|] == s
  {
  }

  /** The order `std::map<std::string, …>` keeps its keys in. */
  predicate Less(a: Text, b: Text) {
    if b == [] then false
    else if a == [] then true
    else a[0] < b[0] || (a[0] == b[0] && Less(a[1..], b[1..]))
  }

  /** It is the order of a dictionary: after the part they share, one text has ended or has the
      smaller byte. */
  predicate Precedes(a: Text, b: Text, shared: nat) {
    && shared <= |a| && shared < |b| && a[..shared] == b[..shared]
    && (shared == |a| || a[shared] < b[shared])
  }

  lemma {:induction false} LessIffPrecedes(a: Text, b: Text)
    ensures Less(a, b) <==> exists n :: Precedes(a, b, n)
  {
    if a != [] && b != [] && a[0] == b[0] {
      LessIffPrecedes(a[1..], b[1..]);
      if n :| Precedes(a[1..], b[1..], n) { PrecedesCons(a, b, n); }
      if n :| Precedes(a, b, n) { PrecedesTail(a, b, n); }
    } else {
      forall n: nat | Precedes(a, b, n) ensures n == 0 { SharedFirst(a, b, n); }
      assert Less(a, b) <==> Precedes(a, b, 0);
    }
  }

  lemma SharedFirst(a: Text, b: Text, n: nat)
    requires Precedes(a, b, n)
    ensures n > 0 ==> a[0] == b[0]
  {
    if n > 0 { assert a[..n][0] == b[..n][0]; }
  }

  lemma PrecedesCons(a: Text, b: Text, n: nat)
    requires a != [] && b != [] && a[0] == b[0] && Precedes(a[1..], b[1..], n)
    ensures Precedes(a, b, n + 1)
  {
    assert a[..n + 1] == [a[0]] + a[1..][..n] && b[..n + 1] == [b[0]] + b[1..][..n];
  }

  lemma PrecedesTail(a: Text, b: Text, n: nat)
    requires a != [] && b != [] && a[0] == b[0] && Precedes(a, b, n)
    ensures n > 0 && Precedes(a[1..], b[1..], n - 1)
  {
    assert a[1..][..n - 1] == a[..n][1..] && b[1..][..n - 1] == b[..n][1..];
  }

  lemma {:induction false} LessIrreflexive(a: Text)
    ensures !Less(a, a)
  {
    if a != [] { LessIrreflexive(a[1..]); }
  }

  lemma {:induction false} LessTransitive(a: Text, b: Text, c: Text)
    requires Less(a, b) && Less(b, c)
    ensures Less(a, c)
  {
    if a != [] && a[0] == b[0] == c[0] { LessTransitive(a[1..], b[1..], c[1..]); }
  }

  lemma {:induction false} LessTotal(a: Text, b: Text)
    ensures Less(a, b) || a == b || Less(b, a)
  {
    if a != [] && b != [] && a[0] == b[0] {
      LessTotal(a[1..], b[1..]);
      assert a == [a[0]] + a[1..] && b == [b[0]] + b[1..];
    }
  }
}
