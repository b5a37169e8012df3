/** The field comparators of the finder: a text comparator (Java's
    `compareToIgnoreCase`), an integer comparator (trim, parse, compare,
    blank meaning 0, unparsable text comparing equal to anything) and a
    money comparator, together with the factory that hands out one cached
    comparator per database field type. */
module Comparators {
  import opened Wrappers
  import opened StringHelper
  import opened DBMetaInfo
  import opened Domain

  // ---------------------------------------------------------------------
  // TextComparator: String.compareToIgnoreCase
  // ---------------------------------------------------------------------

  /** The character `compareToIgnoreCase` finally compares: lower case of
      upper case. */
  function FoldChar(c: char): char {
    LowerChar(UpperChar(c))
  }

  /** `a.compareToIgnoreCase(b)`: at the first position where the two
      characters differ, then differ in upper case, then differ in lower
      case of upper case, the difference of those last characters; when one
      string runs out first, the difference of the lengths. */
  function CompareToIgnoreCase(a: string, b: string): (r: int)
    decreases |a|
  {
    if a == [] || b == [] then |a| - |b|
    else
      var c1, c2 := a[0], b[0];
      if c1 != c2 && UpperChar(c1) != UpperChar(c2) && FoldChar(c1) != FoldChar(c2)
      then FoldChar(c1) as int - FoldChar(c2) as int
      else CompareToIgnoreCase(a[1..], b[1..])
  }

  /** `TextComparator.compare`. */
  function TextCompare(string1: string, string2: string): (r: int)
    ensures r == CompareToIgnoreCase(string1, string2)
  {
    CompareToIgnoreCase(string1, string2)
  }

  /** Two characters agree in upper case exactly when they agree once
      folded, and then the three-stage test of `compareToIgnoreCase` lets
      them pass. */
  lemma FoldCharAgreesWithUpper(c1: char, c2: char)
    ensures FoldChar(c1) == FoldChar(c2) <==> UpperChar(c1) == UpperChar(c2)
    ensures (c1 != c2 && UpperChar(c1) != UpperChar(c2) && FoldChar(c1) != FoldChar(c2))
            <==> FoldChar(c1) != FoldChar(c2)
  {
  }

  /** One step of the comparison, read through the folded characters. */
  lemma CompareStep(a: string, b: string)
    requires a != [] && b != []
    ensures FoldChar(a[0]) != FoldChar(b[0]) ==>
              CompareToIgnoreCase(a, b) == FoldChar(a[0]) as int - FoldChar(b[0]) as int
    ensures FoldChar(a[0]) == FoldChar(b[0]) ==>
              CompareToIgnoreCase(a, b) == CompareToIgnoreCase(a[1..], b[1..])
  {
    FoldCharAgreesWithUpper(a[0], b[0]);
  }

  lemma UpperCaseStep(a: string, b: string)
    requires a != [] && b != []
    ensures ToUpperCase(a) == ToUpperCase(b) <==>
              UpperChar(a[0]) == UpperChar(b[0]) && ToUpperCase(a[1..]) == ToUpperCase(b[1..])
  {
    if UpperChar(a[0]) == UpperChar(b[0]) && ToUpperCase(a[1..]) == ToUpperCase(b[1..]) {
      assert |a| == |b|;
      forall i | 0 <= i < |a| ensures ToUpperCase(a)[i] == ToUpperCase(b)[i] {
        if i > 0 {
          assert ToUpperCase(a[1..])[i - 1] == ToUpperCase(b[1..])[i - 1];
        }
      }
    }
    if ToUpperCase(a) == ToUpperCase(b) {
      assert ToUpperCase(a)[0] == ToUpperCase(b)[0];
      assert |a[1..]| == |b[1..]|;
      forall i | 0 <= i < |a[1..]| ensures ToUpperCase(a[1..])[i] == ToUpperCase(b[1..])[i] {
        assert ToUpperCase(a)[i + 1] == ToUpperCase(b)[i + 1];
      }
    }
  }

  /** Every string compares equal to itself. */
  lemma {:induction false} TextCompareReflexive(a: string)
    ensures TextCompare(a, a) == 0
    decreases |a|
  {
    if a != [] {
      TextCompareReflexive(a[1..]);
    }
  }

  /** Swapping the operands negates the result. */
  lemma {:induction false} TextCompareAntisymmetric(a: string, b: string)
    ensures TextCompare(b, a) == -TextCompare(a, b)
    decreases |a|
  {
    if a != [] && b != [] {
      CompareStep(a, b);
      CompareStep(b, a);
      TextCompareAntisymmetric(a[1..], b[1..]);
    }
  }

  /** Two strings compare as 0 exactly when they are equal once upper-cased:
      strings that differ only in letter case are equal for this
      comparator, and no others are. */
  lemma {:induction false} TextCompareZeroIff(a: string, b: string)
    ensures TextCompare(a, b) == 0 <==> ToUpperCase(a) == ToUpperCase(b)
    decreases |a|
  {
    if a == [] || b == [] {
      if |a| != |b| {
        assert |ToUpperCase(a)| != |ToUpperCase(b)|;
      }
    } else {
      CompareStep(a, b);
      FoldCharAgreesWithUpper(a[0], b[0]);
      UpperCaseStep(a, b);
      TextCompareZeroIff(a[1..], b[1..]);
    }
  }

  /** Letter case does not matter on either side: replacing an operand by a
      string equal to it in upper case leaves every comparison unchanged. */
  lemma {:induction false} TextCompareIgnoresCase(a: string, b: string, c: string)
    requires ToUpperCase(a) == ToUpperCase(b)
    ensures TextCompare(a, c) == TextCompare(b, c)
    ensures TextCompare(c, a) == TextCompare(c, b)
    decreases |a|
  {
    assert |a| == |ToUpperCase(a)| == |ToUpperCase(b)| == |b|;
    if a != [] && c != [] {
      UpperCaseStep(a, b);
      FoldCharAgreesWithUpper(a[0], b[0]);
      CompareStep(a, c);
      CompareStep(b, c);
      CompareStep(c, a);
      CompareStep(c, b);
      TextCompareIgnoresCase(a[1..], b[1..], c[1..]);
    }
  }

  /** A proper prefix, up to letter case, compares below the longer string,
      by the difference of the lengths. */
  lemma {:induction false} TextComparePrefix(a: string, b: string)
    requires |a| < |b| && ToUpperCase(a) == ToUpperCase(b[..|a|])
    ensures TextCompare(a, b) == |a| - |b| < 0
    decreases |a|
  {
    if a != [] {
      UpperCaseStep(a, b[..|a|]);
      FoldCharAgreesWithUpper(a[0], b[0]);
      CompareStep(a, b);
      assert b[..|a|][1..] == b[1..][..|a| - 1];
      TextComparePrefix(a[1..], b[1..]);
    }
  }

  /** The order is transitive. */
  lemma {:induction false} TextCompareTransitive(a: string, b: string, c: string)
    requires TextCompare(a, b) < 0 && TextCompare(b, c) < 0
    ensures TextCompare(a, c) < 0
    decreases |a|
  {
    if a != [] && b != [] && c != [] {
      CompareStep(a, b);
      CompareStep(b, c);
      CompareStep(a, c);
      if FoldChar(a[0]) == FoldChar(b[0]) && FoldChar(b[0]) == FoldChar(c[0]) {
        TextCompareTransitive(a[1..], b[1..], c[1..]);
      }
    }
  }

  // ---------------------------------------------------------------------
  // IntegerComparator
  // ---------------------------------------------------------------------

  /** An operand of the integer comparator: blank text (after trimming)
      stands for UNSAVED_RECORD_NO, other text is parsed after trimming;
      `None` stands for NumberFormatException. */
  function IntegerOperand(s: string): (r: Option<Int32>)
    ensures Trim(s) == [] ==> r == Some(UNSAVED_RECORD_NO)
    ensures Trim(s) != [] ==> r == ParseInt(Trim(s))
  {
    var t := Trim(s);
    if |t| == 0 then Some(UNSAVED_RECORD_NO) else ParseInt(t)
  }

  /** `Integer.compareTo`. */
  function CompareInts(x: int, y: int): (r: int)
    ensures r < 0 <==> x < y
    ensures r == 0 <==> x == y
    ensures r > 0 <==> x > y
  {
    if x < y then -1 else if x == y then 0 else 1
  }

  /** `IntegerComparator.compare`: a NumberFormatException from either
      operand makes the result 0. */
  function IntegerCompare(string1: string, string2: string): (r: int)
    ensures -1 <= r <= 1
  {
    match IntegerOperand(string1)
    case None => 0
    case Some(int1) =>
      match IntegerOperand(string2)
      case None => 0
      case Some(int2) => CompareInts(int1, int2)
  }

  /** Numbers that parse (after trimming) compare by their value. */
  lemma IntegerCompareParsed(string1: string, string2: string, x: Int32, y: Int32)
    requires ParseInt(Trim(string1)) == Some(x) && ParseInt(Trim(string2)) == Some(y)
    ensures IntegerCompare(string1, string2) < 0 <==> x < y
    ensures IntegerCompare(string1, string2) == 0 <==> x == y
    ensures IntegerCompare(string1, string2) > 0 <==> x > y
  {
  }

  /** A blank operand compares like the number 0. */
  lemma IntegerCompareBlank(blank: string, other: string)
    requires Trim(blank) == []
    ensures IntegerCompare(blank, other) == IntegerCompare("0", other)
    ensures IntegerCompare(other, blank) == IntegerCompare(other, "0")
  {
    ZeroParses();
  }

  lemma ZeroParses()
    ensures Trim("0") == "0" && ParseInt("0") == Some(0)
  {
    assert TrimLeading("0") == "0";
    assert TrimTrailing("0") == "0";
    assert "0"[1..] == "";
    assert DigitsValue("0") == DigitsValue("0"[..0]) * 10 + 0;
  }

  /** Text that is neither blank nor a number compares equal to anything,
      on either side. */
  lemma IntegerCompareUnparsable(bad: string, other: string)
    requires Trim(bad) != [] && ParseInt(Trim(bad)).None?
    ensures IntegerCompare(bad, other) == 0 && IntegerCompare(other, bad) == 0
  {
  }

  /** Every string compares equal to itself. */
  lemma IntegerCompareReflexive(s: string)
    ensures IntegerCompare(s, s) == 0
  {
  }

  /** Swapping the operands negates the result. */
  lemma IntegerCompareAntisymmetric(a: string, b: string)
    ensures IntegerCompare(b, a) == -IntegerCompare(a, b)
  {
  }

  /** Strictly-less is transitive: both premises force all three operands
      to parse. */
  lemma IntegerCompareTransitive(a: string, b: string, c: string)
    requires IntegerCompare(a, b) < 0 && IntegerCompare(b, c) < 0
    ensures IntegerCompare(a, c) < 0
  {
  }

  // ---------------------------------------------------------------------
  // MoneyComparator
  // ---------------------------------------------------------------------

  /** `Integer.signum`. */
  function Sign(x: int): (r: int)
    ensures r < 0 <==> x < 0
    ensures r == 0 <==> x == 0
    ensures r > 0 <==> x > 0
  {
    if x < 0 then -1 else if x == 0 then 0 else 1
  }

  /** `MoneyComparator.compare`: both texts go through `Money.valueOf`
      (IllegalArgumentException for text shorter than three characters),
      then `Money.compareTo`, -1, 0 or 1 by the amounts. Reading the amount
      is floating point and is not modelled: `amountOrder` stands for the
      comparison of the two amounts. */
  function MoneyCompare(string1: string, string2: string, amountOrder: (Money, Money) -> int)
    : (r: Result<int, DomainError>)
    ensures r.Err? <==> |string1| < 3 || |string2| < 3
    ensures r.Ok? ==> -1 <= r.value <= 1
    ensures r.Ok? ==> Sign(r.value) == Sign(amountOrder(Money(string1), Money(string2)))
  {
    match MoneyValueOf(string1)
    case None => Err(IllegalArgument)
    case Some(money1) =>
      match MoneyValueOf(string2)
      case None => Err(IllegalArgument)
      case Some(money2) => Ok(Sign(amountOrder(money1, money2)))
  }

  // ---------------------------------------------------------------------
  // The comparators and their factory
  // ---------------------------------------------------------------------

  /** The three comparator classes. */
  datatype ComparatorKind = TextComparator | IntegerComparator | MoneyComparator

  /** The `switch` of `getComparator`: the comparator class for each field
      type. */
  function KindFor(t: DBType): (k: ComparatorKind)
    ensures t == TEXT <==> k == TextComparator
    ensures t == INTEGER <==> k == IntegerComparator
    ensures t == MONEY <==> k == MoneyComparator
  {
    match t
    case TEXT => TextComparator
    case INTEGER => IntegerComparator
    case MONEY => MoneyComparator
  }

  /** `IComparator.compare` dispatched on the comparator class; only the
      money comparator can raise. */
  function CompareAs(kind: ComparatorKind, string1: string, string2: string,
                     amountOrder: (Money, Money) -> int): (r: Result<int, DomainError>)
    ensures kind == TextComparator ==> r == Ok(TextCompare(string1, string2))
    ensures kind == IntegerComparator ==> r == Ok(IntegerCompare(string1, string2))
    ensures kind == MoneyComparator ==> r == MoneyCompare(string1, string2, amountOrder)
  {
    match kind
    case TextComparator => Ok(TextCompare(string1, string2))
    case IntegerComparator => Ok(IntegerCompare(string1, string2))
    case MoneyComparator => MoneyCompare(string1, string2, amountOrder)
  }

  /** A comparator instance. */
  class Comparator {
    const kind: ComparatorKind

    constructor (kind: ComparatorKind)
      ensures this.kind == kind
    {
      this.kind := kind;
    }

    function Compare(string1: string, string2: string, amountOrder: (Money, Money) -> int)
      : (r: Result<int, DomainError>)
      ensures r == CompareAs(kind, string1, string2, amountOrder)
    {
      CompareAs(kind, string1, string2, amountOrder)
    }
  }

  /** `ComparatorFactory` with its comparator cache (a static map in the
      source, one object here). */
  class ComparatorFactory {
    var cache: map<DBType, Comparator>

    /** Every cached comparator is of the class its type calls for. */
    ghost predicate Valid()
      reads this
    {
      forall t :: t in cache ==> cache[t].kind == KindFor(t)
    }

    /** The static initialiser: an empty cache. */
    constructor ()
      ensures cache == map[] && Valid()
    {
      cache := map[];
    }

    /** `getComparator(type)`: the cached comparator, or a new one of the
        right class, cached under `type` and no other key. */
    method GetComparator(t: DBType) returns (comparator: Comparator)
      requires Valid()
      modifies this
      ensures Valid()
      ensures comparator.kind == KindFor(t)
      ensures t in old(cache) ==> comparator == old(cache)[t] && cache == old(cache)
      ensures t !in old(cache) ==> fresh(comparator) && cache == old(cache)[t := comparator]
      ensures t in cache && cache[t] == comparator
    {
      if t !in cache {
        var created: Comparator;
        match t {
          case TEXT => created := new Comparator(TextComparator);
          case INTEGER => created := new Comparator(IntegerComparator);
          case MONEY => created := new Comparator(MoneyComparator);
        }
        cache := cache[t := created];
      }
      comparator := cache[t];
    }
  }

  /** Two calls for the same type give the same instance, and the cache
      gains at most that one entry. */
  method RepeatedCallsShareInstance(factory: ComparatorFactory, t: DBType)
    returns (first: Comparator, second: Comparator)
    requires factory.Valid()
    modifies factory
    ensures first == second && first.kind == KindFor(t)
    ensures factory.cache.Keys == old(factory.cache.Keys) + {t}
    ensures forall u :: u in old(factory.cache) ==> factory.cache[u] == old(factory.cache)[u]
  {
    first := factory.GetComparator(t);
    second := factory.GetComparator(t);
  }
}
