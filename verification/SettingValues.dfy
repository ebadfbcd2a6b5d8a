/**
 * The values a settings file holds and the typed, numerically lenient equality the settings code compares them with.
 */
module SettingValues {
  /** A double: finite ones by the real they stand for, negative zero apart. */
  datatype Float = NaN | PosInf | NegInf | NegZero | Fin(r: real)

  /** `Other` is a value the file editor cannot write: null, an object, a date, text with a lone surrogate. */
  datatype Value =
    Bool(b: bool) | Int(n: int) | Flt(f: Float) | Str(s: string) | List(items: seq<Value>) | Other(what: string)

  predicate Writable(v: Value)
    decreases v
  {
    !v.Other? && (v.List? ==> forall i :: 0 <= i < |v.items| ==> Writable(v.items[i]))
  }

  /** IEEE comparison of two doubles, except that NaN counts as equal to NaN. */
  predicate FloatEqual(a: Float, b: Float) {
    a == b || (a == NegZero && b == Fin(0.0)) || (a == Fin(0.0) && b == NegZero)
  }

  predicate IntEqualsFloat(n: int, f: Float) {
    f == Fin(n as real) || (n == 0 && f == NegZero)
  }

  predicate Equal(a: Value, b: Value)
    decreases a
  {
    if a.Bool? || b.Bool? then a.Bool? && b.Bool? && a.b == b.b
    else if a.Int? && b.Int? then a.n == b.n
    else if a.Flt? && b.Flt? then FloatEqual(a.f, b.f)
    else if a.Int? && b.Flt? then IntEqualsFloat(a.n, b.f)
    else if a.Flt? && b.Int? then IntEqualsFloat(b.n, a.f)
    else if a.List? && b.List? then
      |a.items| == |b.items| && forall i :: 0 <= i < |a.items| ==> Equal(a.items[i], b.items[i])
    else a == b
  }

  /** One representative of each class of equal values: whole numbers as doubles, negative zero as zero. */
  function Canonical(v: Value): Value
    decreases v
  {
    match v
    case Int(n) => Flt(Fin(n as real))
    case Flt(f) => Flt(if f == NegZero then Fin(0.0) else f)
    case List(items) => List(seq(|items|, i requires 0 <= i < |items| => Canonical(items[i])))
    case _ => v
  }

  /** Two values compare equal exactly when they have the same representative. */
  lemma {:induction false} EqualMeansCanonical(a: Value, b: Value)
    ensures Equal(a, b) <==> Canonical(a) == Canonical(b)
    decreases a
  {
    if a.List? && b.List? {
      if |a.items| == |b.items| {
        forall i | 0 <= i < |a.items|
          ensures Equal(a.items[i], b.items[i]) <==> Canonical(a).items[i] == Canonical(b).items[i]
        {
          EqualMeansCanonical(a.items[i], b.items[i]);
        }
        if Canonical(a) == Canonical(b) {
          assert forall i :: 0 <= i < |a.items| ==> Canonical(a).items[i] == Canonical(b).items[i];
        } else {
          assert Canonical(a).items != Canonical(b).items;
        }
      } else {
        assert |Canonical(a).items| != |Canonical(b).items|;
      }
    }
  }

  /** So the comparison is an equivalence. */
  lemma {:induction false} EqualIsEquivalence(a: Value, b: Value, c: Value)
    ensures Equal(a, a)
    ensures Equal(a, b) ==> Equal(b, a)
    ensures Equal(a, b) && Equal(b, c) ==> Equal(a, c)
  {
    EqualMeansCanonical(a, a);
    EqualMeansCanonical(a, b);
    EqualMeansCanonical(b, a);
    EqualMeansCanonical(b, c);
    EqualMeansCanonical(a, c);
  }
}
