/** Connector tags and which pairs of them can be joined. */
module Connectors {
  const PegTag := "Peg"
  const PegHoleTag := "PegHole"
  const AxleTag := "Axle"
  const AxleHoleTag := "AxleHole"

  /** `AreComplementary`: a peg fits a peg hole and an axle an axle hole, in
      either order; nothing else fits. */
  predicate AreComplementary(a: string, b: string)
  {
    || (a == AxleTag && b == AxleHoleTag)
    || (a == AxleHoleTag && b == AxleTag)
    || (a == PegTag && b == PegHoleTag)
    || (a == PegHoleTag && b == PegTag)
  }

  /** `IsPeg`: the inserting side of a joint. */
  predicate IsPeg(t: string) { t == PegTag || t == AxleTag }

  /** `IsHole`: the receiving side of a joint. */
  predicate IsHole(t: string) { t == PegHoleTag || t == AxleHoleTag }

  /** An independent reading of the four tags as connector kinds. */
  datatype Kind = Peg | PegHole | Axle | AxleHole

  function KindOf(t: string): (k: Kind)
    requires IsPeg(t) || IsHole(t)
  {
    if t == PegTag then Peg
    else if t == PegHoleTag then PegHole
    else if t == AxleTag then Axle
    else AxleHole
  }

  /** The socket each inserting kind fits into. */
  function Socket(k: Kind): (h: Kind)
    requires k == Peg || k == Axle
    ensures h != k
  {
    if k == Peg then PegHole else AxleHole
  }

  /** Two tags fit exactly when one names an inserting kind and the other
      names that kind's socket. */
  lemma ComplementaryIsSocket(a: string, b: string)
    ensures AreComplementary(a, b) <==>
      ((IsPeg(a) && IsHole(b) && Socket(KindOf(a)) == KindOf(b))
       || (IsPeg(b) && IsHole(a) && Socket(KindOf(b)) == KindOf(a)))
  {
  }

  /** The fit is symmetric, no tag fits itself, and a fitting pair always has
      one inserting side and one receiving side. */
  lemma ComplementarySymmetric(a: string, b: string)
    ensures AreComplementary(a, b) <==> AreComplementary(b, a)
    ensures !AreComplementary(a, a)
    ensures AreComplementary(a, b) ==> (IsPeg(a) <==> IsHole(b)) && (IsHole(a) <==> IsPeg(b))
  {
  }

  /** A peg never fits an axle hole and an axle never fits a peg hole; two
      inserting tags never fit. */
  lemma NoCrossFit(a: string, b: string)
    requires || (IsPeg(a) && IsPeg(b)) || (IsHole(a) && IsHole(b))
             || (a == PegTag && b == AxleHoleTag) || (a == AxleTag && b == PegHoleTag)
    ensures !AreComplementary(a, b) && !AreComplementary(b, a)
  {
  }
}
