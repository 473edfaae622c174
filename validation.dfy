/**
 * TimeZoneEngine.validateCoordinates, identical in both engines: six rules
 * about the requested bounding box, checked in a fixed order, every violation
 * collected, and one IllegalArgumentException whose message joins the
 * violations' texts with single spaces.
 *
 * The `%f` rendering of a coordinate is a library call and stays abstract as
 * the parameter `fmt`; the fixed parts of each text are written out.
 */
module Validation {
  import opened Wrappers

  const MIN_LAT: real := -90.0
  const MIN_LON: real := -180.0
  const MAX_LAT: real := 90.0
  const MAX_LON: real := 180.0

  /** The six checks, in the order they run. */
  datatype Rule = MinLatRange | MaxLatRange | MinLonRange | MaxLonRange | LatOrder | LonOrder

  const Rules: seq<Rule> := [MinLatRange, MaxLatRange, MinLonRange, MaxLonRange, LatOrder, LonOrder]

  /** The position of a rule in the checking order. */
  function Rank(rule: Rule): (n: nat)
    ensures n < |Rules| && Rules[n] == rule
  {
    match rule
    case MinLatRange => 0
    case MaxLatRange => 1
    case MinLonRange => 2
    case MaxLonRange => 3
    case LatOrder => 4
    case LonOrder => 5
  }

  /** The rule is violated by the box: the range limits are inclusive and the ordering tests strict. */
  predicate Broken(rule: Rule, minLat: real, minLon: real, maxLat: real, maxLon: real) {
    match rule
    case MinLatRange => minLat < MIN_LAT || minLat > MAX_LAT
    case MaxLatRange => maxLat < MIN_LAT || maxLat > MAX_LAT
    case MinLonRange => minLon < MIN_LON || minLon > MAX_LON
    case MaxLonRange => maxLon < MIN_LON || maxLon > MAX_LON
    case LatOrder => minLat > maxLat
    case LonOrder => minLon > maxLon
  }

  /** The rules among `rules` that the box violates, in the given order. */
  function BrokenAmong(rules: seq<Rule>, minLat: real, minLon: real, maxLat: real, maxLon: real): seq<Rule> {
    if rules == [] then []
    else
      BrokenAmong(rules[..|rules| - 1], minLat, minLon, maxLat, maxLon)
      + IfBroken(rules[|rules| - 1], minLat, minLon, maxLat, maxLon)
  }

  /** The violated rule as a one-element list, or the empty list. */
  function IfBroken(rule: Rule, minLat: real, minLon: real, maxLat: real, maxLon: real): seq<Rule> {
    if Broken(rule, minLat, minLon, maxLat, maxLon) then [rule] else []
  }

  /** The violated rules in checking order. */
  function Violations(minLat: real, minLon: real, maxLat: real, maxLon: real): seq<Rule> {
    BrokenAmong(Rules, minLat, minLon, maxLat, maxLon)
  }

  /** The text added to the error list for a violated rule. */
  function Text(rule: Rule, minLat: real, minLon: real, maxLat: real, maxLon: real, fmt: real -> string): string {
    match rule
    case MinLatRange => RangeText("minimum latitude ", fmt(minLat), LatBounds)
    case MaxLatRange => RangeText("maximum latitude ", fmt(maxLat), LatBounds)
    case MinLonRange => RangeText("minimum longitude ", fmt(minLon), LonBounds)
    case MaxLonRange => RangeText("maximum longitude ", fmt(maxLon), LonBounds)
    case LatOrder => OrderText("latitude ", fmt(maxLat), fmt(minLat))
    case LonOrder => OrderText("longitude ", fmt(maxLon), fmt(minLon))
  }

  const LatBounds := "-90 <= latitude <= 90;"
  const LonBounds := "-180 <= longitude <= 180;"

  /** "<what> <value> is out of range: must be <bounds>" */
  function RangeText(what: string, value: string, bounds: string): string {
    what + value + " is out of range: must be " + bounds
  }

  /** "maximum <axis> <max> is less than minimum <axis> <min>;" */
  function OrderText(axis: string, max: string, min: string): string {
    "maximum " + axis + max + " is less than minimum " + axis + min + ";"
  }

  /** The texts of several rules, in order. */
  function Texts(rules: seq<Rule>, minLat: real, minLon: real, maxLat: real, maxLon: real, fmt: real -> string): (r: seq<string>)
    ensures |r| == |rules|
    ensures forall k :: 0 <= k < |rules| ==> r[k] == Text(rules[k], minLat, minLon, maxLat, maxLon, fmt)
  {
    seq(|rules|, k requires 0 <= k < |rules| => Text(rules[k], minLat, minLon, maxLat, maxLon, fmt))
  }

  /** String.join(" ", parts). */
  function Join(parts: seq<string>): string {
    if parts == [] then ""
    else if |parts| == 1 then parts[0]
    else Join(parts[..|parts| - 1]) + " " + parts[|parts| - 1]
  }

  /** What validateCoordinates does: returns normally, or throws with this message. */
  function ValidationOutcome(minLat: real, minLon: real, maxLat: real, maxLon: real, fmt: real -> string): Result<(), string> {
    var v := Violations(minLat, minLon, maxLat, maxLon);
    if v == [] then Success(()) else Failure(Join(Texts(v, minLat, minLon, maxLat, maxLon, fmt)))
  }

  /** validateCoordinates: six checks in a row, each appending its text to the error list. */
  method ValidateCoordinates(minLat: real, minLon: real, maxLat: real, maxLon: real, fmt: real -> string)
    returns (r: Result<(), string>)
    ensures r == ValidationOutcome(minLat, minLon, maxLat, maxLon, fmt)
  {
    var errors: seq<string> := [];
    if minLat < MIN_LAT || minLat > MAX_LAT {
      errors := errors + [Text(MinLatRange, minLat, minLon, maxLat, maxLon, fmt)];
    }
    assert errors == ErrorsAfter(1, minLat, minLon, maxLat, maxLon, fmt);
    if maxLat < MIN_LAT || maxLat > MAX_LAT {
      errors := errors + [Text(MaxLatRange, minLat, minLon, maxLat, maxLon, fmt)];
    }
    assert errors == ErrorsAfter(2, minLat, minLon, maxLat, maxLon, fmt);
    if minLon < MIN_LON || minLon > MAX_LON {
      errors := errors + [Text(MinLonRange, minLat, minLon, maxLat, maxLon, fmt)];
    }
    assert errors == ErrorsAfter(3, minLat, minLon, maxLat, maxLon, fmt);
    if maxLon < MIN_LON || maxLon > MAX_LON {
      errors := errors + [Text(MaxLonRange, minLat, minLon, maxLat, maxLon, fmt)];
    }
    assert errors == ErrorsAfter(4, minLat, minLon, maxLat, maxLon, fmt);
    if minLat > maxLat {
      errors := errors + [Text(LatOrder, minLat, minLon, maxLat, maxLon, fmt)];
    }
    assert errors == ErrorsAfter(5, minLat, minLon, maxLat, maxLon, fmt);
    if minLon > maxLon {
      errors := errors + [Text(LonOrder, minLat, minLon, maxLat, maxLon, fmt)];
    }
    assert errors == ErrorsAfter(6, minLat, minLon, maxLat, maxLon, fmt);
    ErrorsAfterAll(minLat, minLon, maxLat, maxLon, fmt);
    if errors != [] {
      return Failure(Join(errors));
    }
    return Success(());
  }

  /** The rule checked at position k. */
  function RuleAt(k: nat): (rule: Rule)
    requires k < |Rules|
    ensures Rank(rule) == k
  {
    match k
    case 0 => MinLatRange
    case 1 => MaxLatRange
    case 2 => MinLonRange
    case 3 => MaxLonRange
    case 4 => LatOrder
    case _ => LonOrder
  }

  /** The error list after the first k checks. */
  function ErrorsAfter(k: nat, minLat: real, minLon: real, maxLat: real, maxLon: real, fmt: real -> string): seq<string>
    requires k <= |Rules|
  {
    if k == 0 then []
    else
      var rule := RuleAt(k - 1);
      ErrorsAfter(k - 1, minLat, minLon, maxLat, maxLon, fmt)
      + (if Broken(rule, minLat, minLon, maxLat, maxLon) then [Text(rule, minLat, minLon, maxLat, maxLon, fmt)] else [])
  }

  /** After the k-th check the error list holds the texts of the rules among the first k that are violated. */
  lemma {:induction false} ErrorsAfterPrefix(k: nat, minLat: real, minLon: real, maxLat: real, maxLon: real, fmt: real -> string)
    requires k <= |Rules|
    ensures ErrorsAfter(k, minLat, minLon, maxLat, maxLon, fmt) ==
      Texts(BrokenAmong(Rules[..k], minLat, minLon, maxLat, maxLon), minLat, minLon, maxLat, maxLon, fmt)
  {
    if k > 0 {
      ErrorsAfterPrefix(k - 1, minLat, minLon, maxLat, maxLon, fmt);
      var rule := RuleAt(k - 1);
      assert Rules[..k][..k - 1] == Rules[..k - 1];
      assert Rules[k - 1] == rule;
      var prev := BrokenAmong(Rules[..k - 1], minLat, minLon, maxLat, maxLon);
      var v := BrokenAmong(Rules[..k], minLat, minLon, maxLat, maxLon);
      assert v == prev + IfBroken(rule, minLat, minLon, maxLat, maxLon);
      if !Broken(rule, minLat, minLon, maxLat, maxLon) {
        assert v == prev;
      }
    }
  }

  lemma ErrorsAfterAll(minLat: real, minLon: real, maxLat: real, maxLon: real, fmt: real -> string)
    ensures ErrorsAfter(|Rules|, minLat, minLon, maxLat, maxLon, fmt) ==
      Texts(Violations(minLat, minLon, maxLat, maxLon), minLat, minLon, maxLat, maxLon, fmt)
    ensures var errors := ErrorsAfter(|Rules|, minLat, minLon, maxLat, maxLon, fmt);
      ValidationOutcome(minLat, minLon, maxLat, maxLon, fmt) == if errors == [] then Success(()) else Failure(Join(errors))
  {
    ErrorsAfterPrefix(|Rules|, minLat, minLon, maxLat, maxLon, fmt);
    assert Rules[..|Rules|] == Rules;
  }

  // ---- properties ----

  /** A rule is reported exactly when it is violated. */
  lemma {:induction false} BrokenAmongMembers(rules: seq<Rule>, minLat: real, minLon: real, maxLat: real, maxLon: real)
    ensures forall r :: r in BrokenAmong(rules, minLat, minLon, maxLat, maxLon) <==>
      r in rules && Broken(r, minLat, minLon, maxLat, maxLon)
  {
    if rules != [] {
      BrokenAmongMembers(rules[..|rules| - 1], minLat, minLon, maxLat, maxLon);
      assert rules == rules[..|rules| - 1] + [rules[|rules| - 1]];
    }
  }

  /** The rules appear in strictly increasing checking order. */
  predicate InCheckOrder(rules: seq<Rule>) {
    forall i, j :: 0 <= i < j < |rules| ==> Rank(rules[i]) < Rank(rules[j])
  }

  /** Filtering keeps the checking order. */
  lemma {:induction false} BrokenAmongOrdered(rules: seq<Rule>, minLat: real, minLon: real, maxLat: real, maxLon: real)
    requires InCheckOrder(rules)
    ensures InCheckOrder(BrokenAmong(rules, minLat, minLon, maxLat, maxLon))
  {
    if rules != [] {
      var init := rules[..|rules| - 1];
      var last := rules[|rules| - 1];
      BrokenAmongOrdered(init, minLat, minLon, maxLat, maxLon);
      BrokenAmongMembers(init, minLat, minLon, maxLat, maxLon);
      var v := BrokenAmong(rules, minLat, minLon, maxLat, maxLon);
      var head := BrokenAmong(init, minLat, minLon, maxLat, maxLon);
      if Broken(last, minLat, minLon, maxLat, maxLon) {
        assert v == head + [last];
        forall i, j | 0 <= i < j < |v|
          ensures Rank(v[i]) < Rank(v[j])
        {
          assert v[i] == head[i];
          if j == |v| - 1 {
            assert head[i] in init;
            var m :| 0 <= m < |init| && init[m] == head[i];
            assert rules[m] == init[m];
          } else {
            assert v[j] == head[j];
          }
        }
      } else {
        assert v == head;
      }
    }
  }

  /**
   * Validation reports every violated rule and only those, each once, in
   * checking order.
   */
  lemma ViolationsExactly(minLat: real, minLon: real, maxLat: real, maxLon: real)
    ensures forall r :: r in Violations(minLat, minLon, maxLat, maxLon) <==> Broken(r, minLat, minLon, maxLat, maxLon)
    ensures InCheckOrder(Violations(minLat, minLon, maxLat, maxLon))
  {
    BrokenAmongMembers(Rules, minLat, minLon, maxLat, maxLon);
    forall r: Rule
      ensures r in Rules
    {
      assert Rules[Rank(r)] == r;
    }
    RulesInCheckOrder();
    BrokenAmongOrdered(Rules, minLat, minLon, maxLat, maxLon);
  }

  lemma RulesInCheckOrder()
    ensures InCheckOrder(Rules)
  {
    assert forall k :: 0 <= k < |Rules| ==> Rank(Rules[k]) == k;
  }

  lemma ValidIff(minLat: real, minLon: real, maxLat: real, maxLon: real, fmt: real -> string)
    ensures ValidationOutcome(minLat, minLon, maxLat, maxLon, fmt).Success? <==>
      MIN_LAT <= minLat <= maxLat <= MAX_LAT && MIN_LON <= minLon <= maxLon <= MAX_LON
  {
    ViolationsExactly(minLat, minLon, maxLat, maxLon);
    var v := Violations(minLat, minLon, maxLat, maxLon);
    if v != [] {
      assert Broken(v[0], minLat, minLon, maxLat, maxLon);
    } else {
      assert !Broken(MinLatRange, minLat, minLon, maxLat, maxLon) && !Broken(MaxLatRange, minLat, minLon, maxLat, maxLon);
      assert !Broken(MinLonRange, minLat, minLon, maxLat, maxLon) && !Broken(MaxLonRange, minLat, minLon, maxLat, maxLon);
      assert !Broken(LatOrder, minLat, minLon, maxLat, maxLon) && !Broken(LonOrder, minLat, minLon, maxLat, maxLon);
    }
  }

  /** The message is the texts with exactly one space between neighbours. */
  lemma {:induction false} JoinShape(parts: seq<string>)
    ensures |parts| == 1 ==> Join(parts) == parts[0]
    ensures |parts| >= 2 ==> Join(parts) == Join(parts[..|parts| - 1]) + " " + parts[|parts| - 1]
    ensures parts != [] ==> |Join(parts)| == Length(parts) + |parts| - 1
  {
    if |parts| >= 2 {
      JoinShape(parts[..|parts| - 1]);
    }
  }

  /**
   * Joining two non-empty lists of texts is joining each and putting one
   * space between the results: every neighbouring pair of texts, wherever it
   * falls, is separated by exactly one space.
   */
  lemma {:induction false} JoinAppend(a: seq<string>, b: seq<string>)
    requires a != [] && b != []
    ensures Join(a + b) == Join(a) + " " + Join(b)
    decreases |b|
  {
    var ab := a + b;
    var last := b[|b| - 1];
    assert ab[..|ab| - 1] == a + b[..|b| - 1];
    if |b| == 1 {
      assert b[..|b| - 1] == [];
      assert a + b[..|b| - 1] == a;
    } else {
      var init := b[..|b| - 1];
      JoinAppend(a, init);
      calc {
        Join(ab);
        Join(a + init) + " " + last;
        (Join(a) + " " + Join(init)) + " " + last;
        Join(a) + " " + (Join(init) + " " + last);
        Join(a) + " " + Join(b);
      }
    }
  }

  /** The total length of the parts. */
  function Length(parts: seq<string>): nat {
    if parts == [] then 0 else Length(parts[..|parts| - 1]) + |parts[|parts| - 1]|
  }

  // ---- the cases the engine's tests pin down ----

  /** Filtering the first k+1 rules adds the (k+1)-th rule when it is violated. */
  lemma BrokenAmongStep(k: nat, minLat: real, minLon: real, maxLat: real, maxLon: real)
    requires k < |Rules|
    ensures BrokenAmong(Rules[..k + 1], minLat, minLon, maxLat, maxLon) ==
      BrokenAmong(Rules[..k], minLat, minLon, maxLat, maxLon) + IfBroken(RuleAt(k), minLat, minLon, maxLat, maxLon)
  {
    assert Rules[..k + 1][..k] == Rules[..k];
    assert Rules[k] == RuleAt(k);
  }

  /** The violated rules among the first k checks, check by check. */
  function CheckedAfter(k: nat, minLat: real, minLon: real, maxLat: real, maxLon: real): seq<Rule>
    requires k <= |Rules|
  {
    if k == 0 then []
    else CheckedAfter(k - 1, minLat, minLon, maxLat, maxLon) + IfBroken(RuleAt(k - 1), minLat, minLon, maxLat, maxLon)
  }

  lemma {:induction false} CheckedAfterPrefix(k: nat, minLat: real, minLon: real, maxLat: real, maxLon: real)
    requires k <= |Rules|
    ensures CheckedAfter(k, minLat, minLon, maxLat, maxLon) == BrokenAmong(Rules[..k], minLat, minLon, maxLat, maxLon)
  {
    if k > 0 {
      CheckedAfterPrefix(k - 1, minLat, minLon, maxLat, maxLon);
      BrokenAmongStep(k - 1, minLat, minLon, maxLat, maxLon);
    }
  }

  /** The violations, check by check. */
  lemma ViolationsUnrolled(minLat: real, minLon: real, maxLat: real, maxLon: real)
    ensures Violations(minLat, minLon, maxLat, maxLon) == CheckedAfter(6, minLat, minLon, maxLat, maxLon)
  {
    CheckedAfterPrefix(|Rules|, minLat, minLon, maxLat, maxLon);
    assert Rules[..|Rules|] == Rules;
  }

  /** With one violation the message is that rule's text alone. */
  lemma SingleMessage(rule: Rule, minLat: real, minLon: real, maxLat: real, maxLon: real, fmt: real -> string)
    requires Violations(minLat, minLon, maxLat, maxLon) == [rule]
    ensures ValidationOutcome(minLat, minLon, maxLat, maxLon, fmt) == Failure(Text(rule, minLat, minLon, maxLat, maxLon, fmt))
  {
    assert Texts([rule], minLat, minLon, maxLat, maxLon, fmt) == [Text(rule, minLat, minLon, maxLat, maxLon, fmt)];
  }

  /** (-100, 0, 0, 0): only the minimum latitude is out of range. */
  lemma MinLatitudeOutOfRange(fmt: real -> string)
    ensures Violations(-100.0, 0.0, 0.0, 0.0) == [MinLatRange]
    ensures ValidationOutcome(-100.0, 0.0, 0.0, 0.0, fmt) ==
      Failure("minimum latitude " + fmt(-100.0) + " is out of range: must be " + "-90 <= latitude <= 90;")
  {
    ViolationsUnrolled(-100.0, 0.0, 0.0, 0.0);
    SingleMessage(MinLatRange, -100.0, 0.0, 0.0, 0.0, fmt);
  }

  /** (0, 0, 0, 190): only the maximum longitude is out of range. */
  lemma MaxLongitudeOutOfRange(fmt: real -> string)
    ensures Violations(0.0, 0.0, 0.0, 190.0) == [MaxLonRange]
    ensures ValidationOutcome(0.0, 0.0, 0.0, 190.0, fmt) ==
      Failure("maximum longitude " + fmt(190.0) + " is out of range: must be " + "-180 <= longitude <= 180;")
  {
    ViolationsUnrolled(0.0, 0.0, 0.0, 190.0);
    SingleMessage(MaxLonRange, 0.0, 0.0, 0.0, 190.0, fmt);
  }

  /** (0, 0, -1, 0): only the latitudes are in the wrong order. */
  lemma InconsistentLatitudes(fmt: real -> string)
    ensures Violations(0.0, 0.0, -1.0, 0.0) == [LatOrder]
    ensures ValidationOutcome(0.0, 0.0, -1.0, 0.0, fmt) ==
      Failure("maximum " + "latitude " + fmt(-1.0) + " is less than minimum " + "latitude " + fmt(0.0) + ";")
  {
    ViolationsUnrolled(0.0, 0.0, -1.0, 0.0);
    SingleMessage(LatOrder, 0.0, 0.0, -1.0, 0.0, fmt);
  }

  /** (0, 0, -1, -1): both orderings fail, latitude first, and the two texts are joined by one space. */
  lemma MultipleErrors(fmt: real -> string)
    ensures Violations(0.0, 0.0, -1.0, -1.0) == [LatOrder, LonOrder]
    ensures ValidationOutcome(0.0, 0.0, -1.0, -1.0, fmt) ==
      Failure(("maximum " + "latitude " + fmt(-1.0) + " is less than minimum " + "latitude " + fmt(0.0) + ";")
        + " "
        + ("maximum " + "longitude " + fmt(-1.0) + " is less than minimum " + "longitude " + fmt(0.0) + ";"))
  {
    ViolationsUnrolled(0.0, 0.0, -1.0, -1.0);
    var t := Texts([LatOrder, LonOrder], 0.0, 0.0, -1.0, -1.0, fmt);
    assert t == [Text(LatOrder, 0.0, 0.0, -1.0, -1.0, fmt), Text(LonOrder, 0.0, 0.0, -1.0, -1.0, fmt)];
    assert t[..1] == [t[0]];
    assert Join(t) == t[0] + " " + t[1];
  }
}
