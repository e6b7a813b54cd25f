/** Shared vocabulary: results, bytes and a few facts about sequences. */
module Common {
  datatype Option<+T> = None | Some(value: T)

  datatype Result<+T, +E> = Ok(value: T) | Err(error: E)

  type byte = x: int | 0 <= x < 256 witness 0

  const LF: byte := 10
  const CR: byte := 13

  function Min(a: int, b: int): int { if a <= b then a else b }

  function Max(a: int, b: int): int { if a >= b then a else b }

  /** The length of a JavaScript string: a character outside the basic plane counts twice. */
  function Length(s: string): nat
  {
    if s == [] then 0 else Length(s[..|s| - 1]) + if s[|s| - 1] as int > 0xFFFF then 2 else 1
  }

  lemma {:induction false} LengthBounds(s: string)
    ensures |s| <= Length(s) <= 2 * |s|
  {
    if s != [] { LengthBounds(s[..|s| - 1]); }
  }

  function Concat<T>(parts: seq<seq<T>>): seq<T>
  {
    if parts == [] then [] else parts[0] + Concat(parts[1..])
  }

  lemma {:induction false} ConcatAppend<T>(a: seq<seq<T>>, b: seq<seq<T>>)
    ensures Concat(a + b) == Concat(a) + Concat(b)
  {
    if a == [] {
      assert a + b == b;
    } else {
      assert (a + b)[1..] == a[1..] + b;
      ConcatAppend(a[1..], b);
    }
  }

  lemma {:induction false} ConcatSnoc<T>(a: seq<seq<T>>, x: seq<T>)
    ensures Concat(a + [x]) == Concat(a) + x
  {
    ConcatAppend(a, [x]);
    assert Concat([x]) == x;
  }

  lemma MultiplyReflects(d: nat, a: int, b: int)
    requires d * a < d * b
    ensures a < b
  {
  }

  /** The quotient is determined by a remainder below the divisor. */
  lemma DivideExactly(q: nat, d: nat, r: nat)
    requires r < d
    ensures (d * q + r) / d == q
  {
    var n, k := d * q + r, (d * q + r) / d;
    assert n == d * k + n % d;
    assert d * k < d * (q + 1) && d * q < d * (k + 1);
    MultiplyReflects(d, k, q + 1);
    MultiplyReflects(d, q, k + 1);
  }
}
