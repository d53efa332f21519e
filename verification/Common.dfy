/** Machine-sized integers and small helpers shared by the other modules. */
module Common {

  /** An 8-bit `char`/`BYTE`. */
  type byte = x: int | 0 <= x < 0x100

  /** A 16-bit Windows `wchar_t`: one UTF-16 code unit, lone surrogates included. */
  type wchar = x: int | 0 <= x < 0x1_0000

  /** A code unit other than NUL, and a NUL-terminated wide string without its NUL. */
  type unit = c: wchar | c != 0 witness 1
  type wstring = seq<unit>

  /** Reading one past the end of a string finds the NUL. */
  function At(s: wstring, i: nat): wchar
    requires i <= |s|
  {
    if i < |s| then s[i] else 0
  }

  type posint = x: int | 1 <= x witness 1

  /** The program's limit. */
  const MAX_VMS: nat := 32

  datatype Option<+T> = None | Some(value: T)

  function Prepend<T>(front: seq<T>, rest: Option<seq<T>>): Option<seq<T>> {
    match rest
    case None => None
    case Some(r) => Some(front + r)
  }

  lemma PrependTwice<T>(front: seq<T>, x: T, rest: Option<seq<T>>)
    ensures Prepend(front, Prepend([x], rest)) == Prepend(front + [x], rest)
  {
    if rest.Some? {
      assert front + ([x] + rest.value) == front + [x] + rest.value;
    }
  }

  function Min(a: int, b: int): int {
    if a <= b then a else b
  }

  function Max(a: int, b: int): int {
    if a <= b then b else a
  }

  lemma MulAdd(x: int, y: int, d: int)
    ensures (x + y) * d == x * d + y * d
  {
  }

  lemma MulNonneg(x: nat, d: nat)
    ensures x * d >= 0
  {
  }

  lemma MulMono(a: int, b: int, d: nat)
    requires a <= b
    ensures a * d <= b * d
  {
    MulAdd(a, b - a, d);
    MulNonneg(b - a, d);
  }

  /** Quotient and remainder are the only such numbers. */
  lemma DivMod(n: nat, d: nat, q: nat, r: nat)
    requires d > 0 && n == q * d + r && r < d
    ensures n / d == q && n % d == r
  {
    var other := n / d;
    if q < other {
      MulMono(q + 1, other, d);
      MulAdd(q, 1, d);
    } else if other < q {
      MulMono(other + 1, q, d);
      MulAdd(other, 1, d);
    }
  }

  /** A string literal as code units. */
  function Units(s: string): (r: wstring)
    requires forall i :: 0 <= i < |s| ==> 0 < s[i] as int < 0x80
    ensures |r| == |s|
    ensures forall i :: 0 <= i < |s| ==> r[i] == s[i] as int
  {
    seq(|s|, i requires 0 <= i < |s| => s[i] as int)
  }
}
