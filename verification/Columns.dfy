/** Assigned columns: padding to the module size and cyclic shifts.

    A column keeps only its plain rows; the module's padding direction says on
    which side the missing rows are filled with the padding constant.  */
module Columns {
  import opened KoalaBear
  import opened ExtField
  import opened Expressions

  datatype Padding = PadNone | PadLeft | PadRight

  datatype ConcreteVector = ConcreteVector(plain: Vec, padding: Elt)

  /** What an assignment of a module with n rows must satisfy for its rows to be readable. */
  predicate Fits(pad: Padding, n: nat, cv: ConcreteVector) {
    Len(cv.plain) <= n && (pad.PadNone? ==> Len(cv.plain) == n)
  }

  function ElementAtN(pad: Padding, n: nat, cv: ConcreteVector, pos: int): Gen
    requires Fits(pad, n, cv) && 0 <= pos < n
  {
    match pad
    case PadNone => At(cv.plain, pos)
    case PadLeft =>
      var gap := n - Len(cv.plain);
      if pos < gap then FromBase(cv.padding) else At(cv.plain, pos - gap)
    case PadRight =>
      if pos >= Len(cv.plain) then FromBase(cv.padding) else At(cv.plain, pos)
  }

  lemma ElemHonest(pad: Padding, n: nat, cv: ConcreteVector, pos: int)
    requires Fits(pad, n, cv) && 0 <= pos < n
    ensures Honest(ElementAtN(pad, n, cv, pos))
  {
  }

  /** The remainder of the source's language: truncated towards zero. */
  function Rem(a: int, n: int): int
    requires n > 0
  {
    if a >= 0 then a % n else -((-a) % n)
  }

  /** The row a cyclic offset lands on, as the source normalises it. */
  function Wrap(a: int, n: int): int
    requires n > 0
  {
    (Rem(a, n) + n) % n
  }

  lemma NegativeRemainder(a: int, n: int)
    requires n > 0
    ensures (n - (-a) % n) % n == a % n
  {
    var b := -a;
    assert b == n * (b / n) + b % n;
    assert n * (-(b / n)) == -(n * (b / n));
    if b % n == 0 {
      Remainder(a, n, -(b / n), 0);
      Remainder(n, n, 1, 0);
    } else {
      assert n * (-(b / n) - 1) == -(n * (b / n)) - n;
      Remainder(a, n, -(b / n) - 1, n - b % n);
      Remainder(n - b % n, n, 0, n - b % n);
    }
  }

  /** Both ways the source normalises an offset give the mathematical remainder. */
  lemma WrapIsMod(a: int, n: int)
    requires n > 0
    ensures Wrap(a, n) == a % n
    ensures Rem(a, n) < 0 ==> Rem(a, n) + n == a % n
    ensures Rem(a, n) >= 0 ==> Rem(a, n) == a % n
    ensures 0 <= Wrap(a, n) < n
  {
    if a >= 0 {
      AddMultiple(a % n, 1, n);
      Remainder(a % n, n, 0, a % n);
    } else {
      NegativeRemainder(a, n);
      var r := (-a) % n;
      if r != 0 { Remainder(n - r, n, 0, n - r); } else { Remainder(n, n, 1, 0); }
    }
  }

  // ---- full-sized columns ----

  function Fill<T>(x: T, k: nat): seq<T> { seq(k, _ => x) }

  function Lifted(v: Vec): seq<Ext> {
    if v.ExtVec? then v.ext else seq(|v.base|, i requires 0 <= i < |v.base| => Lift(v.base[i]))
  }

  /** All n rows of the column, in the extension field. */
  function Padded(pad: Padding, n: nat, cv: ConcreteVector): (s: seq<Ext>)
    requires Fits(pad, n, cv)
    ensures |s| == n
  {
    var gap := n - Len(cv.plain);
    if pad.PadLeft? then Fill(Lift(cv.padding), gap) + Lifted(cv.plain)
    else Lifted(cv.plain) + Fill(Lift(cv.padding), gap)
  }

  /** Row r of the padded column is what ElementAtN reads there. */
  lemma PaddedAt(pad: Padding, n: nat, cv: ConcreteVector, r: nat)
    requires Fits(pad, n, cv) && r < n
    ensures Padded(pad, n, cv)[r] == ElementAtN(pad, n, cv, r).val
  {
    hide Lift;
  }

  /** Row r of the rotation is row (r + offset) mod |s|. */
  function Rotated<T>(s: seq<T>, offset: int): (t: seq<T>)
    ensures |t| == |s|
  {
    if |s| == 0 then s
    else
      WrapIsMod(offset, |s|);
      var k := Wrap(offset, |s|);
      s[k..] + s[..k]
  }

  lemma CyclicIndex(r: int, offset: int, n: int)
    requires 0 <= r < n
    ensures r < n - offset % n ==> (r + offset) % n == r + offset % n
    ensures r >= n - offset % n ==> (r + offset) % n == r + offset % n - n
  {
    var k := offset % n;
    assert r + offset == n * (offset / n) + (r + k);
    if r < n - k {
      Remainder(r + offset, n, offset / n, r + k);
    } else {
      assert n * (offset / n + 1) == n * (offset / n) + n;
      Remainder(r + offset, n, offset / n + 1, r + k - n);
    }
  }

  lemma RotatedAt<T>(s: seq<T>, offset: int, r: nat)
    requires r < |s|
    ensures 0 <= (r + offset) % |s| < |s|
    ensures Rotated(s, offset)[r] == s[(r + offset) % |s|]
  {
    WrapIsMod(offset, |s|);
    CyclicIndex(r, offset, |s|);
  }

  /** The built-in copy: overwrites dst from index `at` with the rows of src. */
  method Copy<T>(dst: array<T>, at: nat, src: seq<T>)
    requires at + |src| <= dst.Length
    modifies dst
    ensures dst[..at] == old(dst[..at])
    ensures dst[at..at + |src|] == src
    ensures dst[at + |src|..] == old(dst[at + |src|..])
  {
    ghost var was := dst[..];
    for j := 0 to |src|
      invariant forall t :: 0 <= t < at ==> dst[t] == was[t]
      invariant forall t :: at <= t < at + j ==> dst[t] == src[t - at]
      invariant forall t :: at + j <= t < dst.Length ==> dst[t] == was[t]
    {
      dst[at + j] := src[j];
    }
  }

  lemma TwoPieces<T>(v: seq<T>, was: seq<T>, mid: seq<T>, s: nat)
    requires |v| == |was| == |mid| && s <= |v|
    requires mid[..|v| - s] == was[s..]
    requires v[..|v| - s] == mid[..|v| - s] && v[|v| - s..] == was[..s]
    ensures v == was[s..] + was[..s]
  {
    assert v == v[..|v| - s] + v[|v| - s..];
  }

  /** The two-piece rotation, in place. */
  method RotateLeft<T>(v: array<T>, offset: int)
    requires v.Length > 0
    modifies v
    ensures v[..] == Rotated(old(v[..]), offset)
  {
    var n := v.Length;
    WrapIsMod(offset, n);
    var s := (Rem(offset, n) + n) % n;
    if s == 0 {
      assert v[..] == v[0..] + v[..0];
      return;
    }
    var tmp := v[..s];
    Copy(v, 0, v[s..]);
    ghost var mid := v[..];
    assert mid[..n - s] == v[0..0 + (n - s)];
    Copy(v, n - s, tmp);
    assert v[n - s..n - s + s] == v[n - s..];
    TwoPieces(v[..], old(v[..]), mid, s);
  }

  /** A shifted view as a full-sized extension vector: bulk copies, then the rotation. */
  method EvaluateView(pad: Padding, n: nat, cv: ConcreteVector, shift: int) returns (rows: seq<Ext>)
    requires Fits(pad, n, cv) && n > 0
    ensures rows == Rotated(Padded(pad, n, cv), shift)
    ensures forall r :: 0 <= r < n ==>
      0 <= (r + shift) % n < n && rows[r] == ElementAtN(pad, n, cv, (r + shift) % n).val
  {
    hide Lift, Lifted, Rotated, ElementAtN;
    var dst := new Ext[n](_ => Zero6);
    var len := Len(cv.plain);
    LiftedLength(cv.plain);
    if pad.PadLeft? {
      Copy(dst, 0, Fill(Lift(cv.padding), n - len));
      Copy(dst, n - len, Lifted(cv.plain));
      assert dst[..] == dst[..n - len] + dst[n - len..n - len + len];
    } else {
      Copy(dst, 0, Lifted(cv.plain));
      Copy(dst, len, Fill(Lift(cv.padding), n - len));
      assert dst[..] == dst[..len] + dst[len..len + (n - len)];
    }
    assert dst[..] == Padded(pad, n, cv);
    RotateLeft(dst, shift);
    rows := dst[..];
    forall r | 0 <= r < n
      ensures 0 <= (r + shift) % n < n && rows[r] == ElementAtN(pad, n, cv, (r + shift) % n).val {
      RotatedAt(Padded(pad, n, cv), shift, r);
      PaddedAt(pad, n, cv, (r + shift) % n);
    }
  }

  lemma LiftedLength(v: Vec)
    ensures |Lifted(v)| == Len(v)
  {
  }
}
