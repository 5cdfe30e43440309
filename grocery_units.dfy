/**
 * The unit vocabulary, the package-size extractor, the unit-price converter,
 * the `$`-price parser and the listing normaliser of the grocery price
 * comparator (grocery_price_compare.py). Text is lower-cased ASCII where the
 * original lower-cases it; regular-expression searches are written out as
 * "the first start position from which the pattern matches".
 */
module GroceryUnits {
  import opened Wrappers
  import opened Text

  /** The canonical units, in the order of the alias table. */
  datatype Unit = Lb | Oz | Gal | L | Count

  /** The normalisation targets an item may ask for. */
  datatype Target = PerLb | PerOz | PerGal | PerL | PerCount

  const UnitOrder: seq<Unit> := [Lb, Oz, Gal, L, Count]

  /** The position of a unit in the alias table. */
  function Rank(u: Unit): nat {
    match u
    case Lb => 0
    case Oz => 1
    case Gal => 2
    case L => 3
    case Count => 4
  }

  /** The aliases the table lists for each canonical unit. */
  function Aliases(u: Unit): seq<string> {
    match u
    case Lb => ["lb", "lbs", "pound", "pounds"]
    case Oz => ["oz", "ounce", "ounces"]
    case Gal => ["gal", "gallon", "gallons"]
    case L => ["l", "liter", "liters", "litre", "litres"]
    case Count => ["ct", "count", "ea", "each"]
  }

  /** The column value written for a target. */
  function TargetName(t: Target): string {
    match t
    case PerLb => "per_lb"
    case PerOz => "per_oz"
    case PerGal => "per_gal"
    case PerL => "per_l"
    case PerCount => "per_count"
  }

  /** The unit a target is expressed in. */
  function TargetUnit(t: Target): Unit {
    match t
    case PerLb => Lb
    case PerOz => Oz
    case PerGal => Gal
    case PerL => L
    case PerCount => Count
  }

  // ---------------------------------------------------------------------
  // identify_unit
  // ---------------------------------------------------------------------

  /** `alias` occurs at `i` of `t` with no letter a-z right before or after
      it (the lookarounds `(?<![a-z])` and `(?![a-z])`). */
  predicate StandaloneAt(t: string, alias: string, i: nat) {
    && At(t, i, alias)
    && (i == 0 || !IsLowerLetter(t[i - 1]))
    && (i + |alias| == |t| || !IsLowerLetter(t[i + |alias|]))
  }

  predicate AliasOccurs(t: string, alias: string) {
    exists i :: 0 <= i <= |t| && StandaloneAt(t, alias, i)
  }

  /** Some alias of `u` occurs stand-alone in `t`. */
  predicate Mentions(t: string, u: Unit) {
    exists a :: a in Aliases(u) && AliasOccurs(t, a)
  }

  /** The package hint `\bdoz|dozen\b`. */
  predicate DozenHint(t: string) {
    exists i :: 0 <= i <= |t| &&
      ((Boundary(t, i) && At(t, i, "doz")) || (At(t, i, "dozen") && Boundary(t, i + 5)))
  }

  /** The index of the first unit of `units` from `i` on that `t`
      mentions; `|units|` when there is none. */
  function FirstMentionedFrom(t: string, units: seq<Unit>, i: nat): (k: nat)
    requires i <= |units|
    ensures i <= k <= |units|
    ensures k < |units| ==> Mentions(t, units[k])
    ensures forall j :: i <= j < k ==> !Mentions(t, units[j])
    decreases |units| - i
  {
    if i == |units| || Mentions(t, units[i]) then i else FirstMentionedFrom(t, units, i + 1)
  }

  /** The first unit of `units` that `t` mentions. */
  function FirstMentioned(t: string, units: seq<Unit>): (r: Option<Unit>)
    ensures r.Some? ==> r.value in units && Mentions(t, r.value)
    ensures r.Some? ==> exists k :: 0 <= k < |units| && units[k] == r.value &&
                          forall j :: 0 <= j < k ==> !Mentions(t, units[j])
    ensures r.None? ==> forall u :: u in units ==> !Mentions(t, u)
  {
    var k := FirstMentionedFrom(t, units, 0);
    if k < |units| then Some(units[k]) else None
  }

  /** A unit mentioned in `t` and no unit before it: the rule of
      identify_unit's scan. */
  ghost predicate FirstByRank(t: string, u: Unit) {
    Mentions(t, u) && forall v :: Rank(v) < Rank(u) ==> !Mentions(t, v)
  }

  /** identify_unit: the first canonical unit, in table order, with an alias
      standing alone in the lower-cased text; otherwise `Count` when the text
      hints at a dozen; otherwise nothing. */
  function IdentifyUnit(text: string): (r: Option<Unit>)
    ensures forall u :: r == Some(u) <==>
      FirstByRank(Lower(text), u) || (u == Count && DozenHint(Lower(text)) && NoneMentioned(Lower(text)))
  {
    var t := Lower(text);
    var k := FirstMentionedFrom(t, UnitOrder, 0);
    var m := FirstMentioned(t, UnitOrder);
    IdentifyUnitRule(t, k);
    if m.Some? then m
    else if DozenHint(t) then Some(Count)
    else None
  }

  /** No unit is mentioned in `t`. */
  ghost predicate NoneMentioned(t: string) {
    forall v :: !Mentions(t, v)
  }

  lemma IdentifyUnitRule(t: string, k: nat)
    requires k <= |UnitOrder|
    requires k < |UnitOrder| ==> Mentions(t, UnitOrder[k])
    requires forall j :: 0 <= j < k ==> !Mentions(t, UnitOrder[j])
    ensures k < |UnitOrder| ==> forall u :: FirstByRank(t, u) <==> u == UnitOrder[k]
    ensures k < |UnitOrder| ==> !NoneMentioned(t)
    ensures k == |UnitOrder| ==> NoneMentioned(t)
  {
    RankIndexesUnitOrder();
    if k < |UnitOrder| {
      var w := UnitOrder[k];
      assert Rank(w) == k;
      forall u ensures FirstByRank(t, u) <==> u == w {
        if Rank(u) < k {
          assert !Mentions(t, UnitOrder[Rank(u)]);
        } else if Rank(u) > k {
          assert Rank(w) < Rank(u) && Mentions(t, w);
        }
      }
    } else {
      forall v ensures !Mentions(t, v) {
        assert UnitOrder[Rank(v)] == v;
      }
    }
  }

  lemma RankIndexesUnitOrder()
    ensures forall v :: v in UnitOrder && UnitOrder[Rank(v)] == v
  {
    forall v ensures v in UnitOrder && UnitOrder[Rank(v)] == v {
      match v
      case Lb =>
      case Oz =>
      case Gal =>
      case L =>
      case Count =>
    }
  }

  predicate AllLetters(w: string) { forall i :: 0 <= i < |w| ==> IsLetter(w[i]) }

  /** In a word made of letters only, an alias stands alone exactly when it
      is the whole word. */
  lemma WordAliasOccurs(t: string, alias: string)
    requires forall i :: 0 <= i < |t| ==> IsLowerLetter(t[i])
    requires |alias| > 0
    ensures AliasOccurs(t, alias) <==> t == alias
  {
    if AliasOccurs(t, alias) {
      var i :| 0 <= i <= |t| && StandaloneAt(t, alias, i);
      assert i == 0;
      assert i + |alias| == |t|;
      assert t == t[0..|alias|];
    }
    if t == alias {
      assert StandaloneAt(t, alias, 0);
    }
  }

  /** The dozen hint on a word of letters: it starts with "doz" or ends with
      "dozen". */
  lemma WordDozenHint(t: string)
    requires forall i :: 0 <= i < |t| ==> IsLowerLetter(t[i])
    ensures DozenHint(t) <==> At(t, 0, "doz") || (|t| >= 5 && At(t, |t| - 5, "dozen"))
  {
    if DozenHint(t) {
      var i :| 0 <= i <= |t| &&
        ((Boundary(t, i) && At(t, i, "doz")) || (At(t, i, "dozen") && Boundary(t, i + 5)));
      if Boundary(t, i) && At(t, i, "doz") {
        assert i == 0;
      } else {
        assert At(t, i, "dozen") && Boundary(t, i + 5);
        assert t[i + 4] == t[i..i + 5][4] == 'n';
        assert i + 5 == |t|;
      }
    }
    if At(t, 0, "doz") {
      assert Boundary(t, 0);
    } else if |t| >= 5 && At(t, |t| - 5, "dozen") {
      assert Boundary(t, |t|);
    }
  }

  /** The unit a word of letters names, looked up in the alias table. */
  function WordUnit(t: string): Option<Unit> {
    if t in Aliases(Lb) then Some(Lb)
    else if t in Aliases(Oz) then Some(Oz)
    else if t in Aliases(Gal) then Some(Gal)
    else if t in Aliases(L) then Some(L)
    else if t in Aliases(Count) then Some(Count)
    else if At(t, 0, "doz") || (|t| >= 5 && At(t, |t| - 5, "dozen")) then Some(Count)
    else None
  }

  /** identify_unit on a word of letters (what the unit-price pattern
      captures): the unit whose alias list holds the lower-cased word, else
      the dozen hint. */
  lemma IdentifyWord(w: string)
    requires AllLetters(w)
    ensures IdentifyUnit(w) == WordUnit(Lower(w))
  {
    var t := Lower(w);
    forall u ensures Mentions(t, u) <==> t in Aliases(u) {
      forall a | a in Aliases(u) ensures AliasOccurs(t, a) <==> t == a {
        WordAliasOccurs(t, a);
      }
    }
    WordDozenHint(t);
    var r := IdentifyUnit(w);
    if r.Some? {
      assert Rank(r.value) < 5;
    }
  }

  // ---------------------------------------------------------------------
  // extract_size
  // ---------------------------------------------------------------------

  /** The unit alternatives of the package-size pattern, in their order,
      each with the canonical unit identify_unit gives it. */
  const SizeAliases: seq<(string, Unit)> := [
    ("oz", Oz), ("ounce", Oz), ("ounces", Oz),
    ("lb", Lb), ("lbs", Lb), ("pound", Lb), ("pounds", Lb),
    ("gal", Gal), ("gallon", Gal), ("gallons", Gal),
    ("l", L), ("liter", L), ("litre", L), ("liters", L), ("litres", L),
    ("ct", Count), ("count", Count), ("ea", Count), ("each", Count)
  ]

  /** extract_size maps the captured alias with `identify_unit(unit) or unit`;
      every alternative of the pattern is identified as the unit paired with
      it, so the fallback to the raw alias never applies. */
  lemma SizeAliasesIdentified()
    ensures forall k :: 0 <= k < |SizeAliases| ==> IdentifyUnit(SizeAliases[k].0) == Some(SizeAliases[k].1)
  {
    forall k | 0 <= k < |SizeAliases|
      ensures IdentifyUnit(SizeAliases[k].0) == Some(SizeAliases[k].1)
    {
      IdentifyAlias(SizeAliases[k].1, SizeAliases[k].0);
    }
  }

  /** Every alias in the table is identified as its own unit: the alias
      lists are disjoint. */
  lemma IdentifyAlias(u: Unit, a: string)
    requires a in Aliases(u)
    ensures IdentifyUnit(a) == Some(u)
  {
    WordUnitOfAlias(u, a);
    assert Lower(a) == a;
    IdentifyWord(a);
  }

  lemma WordUnitOfAlias(u: Unit, a: string)
    requires a in Aliases(u)
    ensures WordUnit(a) == Some(u)
    ensures forall i :: 0 <= i < |a| ==> IsLowerLetter(a[i])
  {
    match u
    case Lb => LbAlias(a);
    case Oz => OzAlias(a);
    case Gal => GalAlias(a);
    case L => LAlias(a);
    case Count => CountAlias(a);
  }

  lemma LbAlias(a: string)
    requires a in Aliases(Lb)
    ensures WordUnit(a) == Some(Lb) && forall i :: 0 <= i < |a| ==> IsLowerLetter(a[i])
  {
    assert a == "lb" || a == "lbs" || a == "pound" || a == "pounds";
  }

  lemma OzAlias(a: string)
    requires a in Aliases(Oz)
    ensures WordUnit(a) == Some(Oz) && forall i :: 0 <= i < |a| ==> IsLowerLetter(a[i])
  {
    assert a == "oz" || a == "ounce" || a == "ounces";
  }

  lemma GalAlias(a: string)
    requires a in Aliases(Gal)
    ensures WordUnit(a) == Some(Gal) && forall i :: 0 <= i < |a| ==> IsLowerLetter(a[i])
  {
    assert a == "gal" || a == "gallon" || a == "gallons";
  }

  lemma LAlias(a: string)
    requires a in Aliases(L)
    ensures WordUnit(a) == Some(L) && forall i :: 0 <= i < |a| ==> IsLowerLetter(a[i])
  {
    assert a == "l" || a == "liter" || a == "liters" || a == "litre" || a == "litres";
  }

  lemma CountAlias(a: string)
    requires a in Aliases(Count)
    ensures WordUnit(a) == Some(Count) && forall i :: 0 <= i < |a| ==> IsLowerLetter(a[i])
  {
    assert a == "ct" || a == "count" || a == "ea" || a == "each";
  }

  predicate AltMatches(t: string, r: nat, alt: string) {
    At(t, r, alt) && Boundary(t, r + |alt|)
  }

  /** The index of the first alternative from `i` on that matches at `r`
      and is followed by `\b`; `|alts|` when none does. */
  function FirstAltFrom(t: string, r: nat, alts: seq<(string, Unit)>, i: nat): (k: nat)
    requires i <= |alts|
    ensures i <= k <= |alts|
    ensures k < |alts| ==> AltMatches(t, r, alts[k].0)
    ensures forall j :: i <= j < k ==> !AltMatches(t, r, alts[j].0)
    decreases |alts| - i
  {
    if i == |alts| || AltMatches(t, r, alts[i].0) then i else FirstAltFrom(t, r, alts, i + 1)
  }

  /** The first alternative that matches at `r` and is followed by `\b`. */
  function UnitTokenAt(t: string, r: nat, alts: seq<(string, Unit)>): (u: Option<Unit>)
    ensures u.Some? ==> exists k :: 0 <= k < |alts| && alts[k].1 == u.value &&
                          At(t, r, alts[k].0) && Boundary(t, r + |alts[k].0|)
    ensures u.None? ==> forall k :: 0 <= k < |alts| ==> !(At(t, r, alts[k].0) && Boundary(t, r + |alts[k].0|))
  {
    var k := FirstAltFrom(t, r, alts, 0);
    if k < |alts| then Some(alts[k].1) else None
  }

  predicate IsNumChar(c: char) { IsDigit(c) || c == '.' }

  /** End of the run of digits and dots that starts at `i`. */
  function NumRunEnd(s: string, i: nat): (r: nat)
    requires i <= |s|
    ensures i <= r <= |s|
    ensures forall k :: i <= k < r ==> IsNumChar(s[k])
    ensures r == |s| || !IsNumChar(s[r])
    decreases |s| - i
  {
    if i < |s| && IsNumChar(s[i]) then NumRunEnd(s, i + 1) else i
  }

  /** `s` matches `[0-9]*\.?[0-9]+` entirely. */
  predicate IsDecimal(s: string) {
    && |s| > 0 && IsDigit(s[|s| - 1])
    && var k := DigitEnd(s, 0);
       k == |s| || (s[k] == '.' && AllDigits(s[k + 1..]))
  }

  function Pow10(n: nat): (p: nat)
    ensures p > 0
  {
    if n == 0 then 1 else 10 * Pow10(n - 1)
  }

  /** Python's `float(s)` for a decimal string (exact). */
  function DecimalValue(s: string): (v: real)
    requires IsDecimal(s)
    ensures v >= 0.0
  {
    var k := DigitEnd(s, 0);
    var whole := DigitsValue(s[..k]) as real;
    if k == |s| then whole
    else whole + DigitsValue(s[k + 1..]) as real / Pow10(|s| - k - 1) as real
  }

  /** The package-size pattern
      `([0-9]*\.?[0-9]+)\s*(fl\s*)?(oz|ounce|...|each)\b` tried at start `p`:
      the number is the whole digit-and-dot run (what follows it must be a
      space or a letter), an optional "fl" is skipped, and the alias must be
      followed by a non-word character or the end. */
  function SizeAt(t: string, p: nat): Option<(real, Unit)> {
    if p > |t| then None
    else
      var e := NumRunEnd(t, p);
      if !IsDecimal(t[p..e]) then None
      else
        var q := SkipSpace(t, e);
        var r := if At(t, q, "fl") then SkipSpace(t, q + 2) else q;
        match UnitTokenAt(t, r, SizeAliases)
        case None => None
        case Some(u) => Some((DecimalValue(t[p..e]), u))
  }

  /** extract_size: the first number followed by a unit alias in the
      lower-cased text, else 12 count if "dozen" occurs anywhere, else
      nothing. */
  function ExtractSize(text: string): (r: Option<(real, Unit)>)
    ensures var t := Lower(text);
      (exists p :: 0 <= p <= |t| && SizeAt(t, p).Some?) ==>
        exists p :: 0 <= p <= |t| && r == SizeAt(t, p) && forall q :: 0 <= q < p ==> SizeAt(t, q).None?
    ensures var t := Lower(text);
      (forall p :: 0 <= p <= |t| ==> SizeAt(t, p).None?) ==>
        r == if Contains(t, "dozen") then Some((12.0, Count)) else None
    ensures r.Some? ==> r.value.0 >= 0.0
  {
    var t := Lower(text);
    var f := (p: nat) => SizeAt(t, p);
    var m := FirstMatch(f, 0, |t|);
    assert forall p: nat :: f(p) == SizeAt(t, p);
    if m.Some? then m
    else if Contains(t, "dozen") then Some((12.0, Count))
    else None
  }

  // ---------------------------------------------------------------------
  // convert_unit_price
  // ---------------------------------------------------------------------

  const OzPerLb: real := 16.0
  const OzPerGal: real := 128.0
  const LPerGal: real := 3.78541

  /** How many ounces one unit holds, by the constants above: 16 in a
      pound, 128 in a gallon, and a gallon's worth over 3.78541 in a liter.
      The original treats the weight ounce and the fluid ounce as one unit;
      a count is its own measure. */
  function OuncesIn(u: Unit): (r: real)
    ensures r > 0.0
  {
    match u
    case Lb => OzPerLb
    case Oz => 1.0
    case Gal => OzPerGal
    case L => OzPerGal / LPerGal
    case Count => 1.0
  }

  /** convert_unit_price: a price per `src` expressed per the target's unit.
      Ounce and pound, ounce and gallon, liter and gallon convert with fixed
      factors; a unit already equal to the target's is kept; every other
      pair is refused. A converted price is the price of as much of the
      source unit as one target unit holds. */
  function ConvertUnitPrice(value: real, src: Unit, tgt: Target): (r: Option<real>)
    ensures src == TargetUnit(tgt) ==> r == Some(value)
    ensures r.Some? <==> Convertible(src, tgt)
    ensures r.Some? ==> r.value * OuncesIn(src) == value * OuncesIn(TargetUnit(tgt))
  {
    if src == Oz && tgt == PerLb then Some(value * OzPerLb)
    else if src == Lb && tgt == PerOz then Some(value / OzPerLb)
    else if src == Oz && tgt == PerGal then Some(value * OzPerGal)
    else if src == Gal && tgt == PerOz then Some(value / OzPerGal)
    else if src == L && tgt == PerGal then Some(value * LPerGal)
    else if src == Gal && tgt == PerL then Some(value / LPerGal)
    else if src == TargetUnit(tgt) then Some(value)
    else None
  }

  /** Each conversion pair is undone by its partner. */
  lemma ConversionsAreInverse(v: real)
    ensures ConvertUnitPrice(ConvertUnitPrice(v, Oz, PerLb).value, Lb, PerOz) == Some(v)
    ensures ConvertUnitPrice(ConvertUnitPrice(v, Lb, PerOz).value, Oz, PerLb) == Some(v)
    ensures ConvertUnitPrice(ConvertUnitPrice(v, Oz, PerGal).value, Gal, PerOz) == Some(v)
    ensures ConvertUnitPrice(ConvertUnitPrice(v, Gal, PerOz).value, Oz, PerGal) == Some(v)
    ensures ConvertUnitPrice(ConvertUnitPrice(v, L, PerGal).value, Gal, PerL) == Some(v)
    ensures ConvertUnitPrice(ConvertUnitPrice(v, Gal, PerL).value, L, PerGal) == Some(v)
  {
  }

  /** Worked conversions: $0.25 an ounce is $4 a pound, $4 a pound is
      $0.25 an ounce, $0.03125 an ounce is $4 a gallon, $4 a gallon is
      $0.03125 an ounce, $1 a liter is $3.78541 a gallon and $3.78541 a
      gallon is $1 a liter. */
  lemma ConversionExamples()
    ensures ConvertUnitPrice(0.25, Oz, PerLb) == Some(4.0)
    ensures ConvertUnitPrice(4.0, Lb, PerOz) == Some(0.25)
    ensures ConvertUnitPrice(0.03125, Oz, PerGal) == Some(4.0)
    ensures ConvertUnitPrice(4.0, Gal, PerOz) == Some(0.03125)
    ensures ConvertUnitPrice(1.0, L, PerGal) == Some(3.78541)
    ensures ConvertUnitPrice(3.78541, Gal, PerL) == Some(1.0)
  {
  }

  /** Ounces and liters never convert into each other, count never converts
      to or from anything else, and pounds never become volumes: the refusal
      holds for every value. */
  lemma CrossDimensionRefused(v: real, u: Unit, t: Target)
    ensures ConvertUnitPrice(v, Oz, PerL) == None && ConvertUnitPrice(v, L, PerOz) == None
    ensures (u == Count) != (t == PerCount) ==> ConvertUnitPrice(v, u, t) == None
    ensures ConvertUnitPrice(v, Lb, PerGal) == None && ConvertUnitPrice(v, Lb, PerL) == None
    ensures ConvertUnitPrice(v, Gal, PerLb) == None && ConvertUnitPrice(v, L, PerLb) == None
  {
  }

  // ---------------------------------------------------------------------
  // parse_price
  // ---------------------------------------------------------------------

  function RemoveCommas(s: string): (r: string)
    ensures ',' !in r
  {
    if s == [] then [] else (if s[0] == ',' then [] else [s[0]]) + RemoveCommas(s[1..])
  }

  /** `\$\s*([0-9]*\.?[0-9]+)` tried at `p`: after the dollar sign and any
      spaces, digits with a fraction when a dot is followed by a digit, else
      the digits alone (the engine backtracks off a dangling dot). */
  function PriceAt(t: string, p: nat): (r: Option<real>)
    ensures r.Some? ==> p < |t| && t[p] == '$' && r.value >= 0.0
  {
    if p >= |t| || t[p] != '$' then None
    else
      var q := SkipSpace(t, p + 1);
      var d := DigitEnd(t, q);
      if d + 1 < |t| && t[d] == '.' && IsDigit(t[d + 1]) then
        var e := DigitEnd(t, d + 1);
        FractionIsDecimal(t, q, d, e);
        Some(DecimalValue(t[q..e]))
      else if d > q then
        WholeIsDecimal(t, q, d);
        Some(DecimalValue(t[q..d]))
      else None
  }

  lemma FractionIsDecimal(t: string, q: nat, d: nat, e: nat)
    requires q <= |t| && d == DigitEnd(t, q) && d + 1 < |t| && t[d] == '.' && IsDigit(t[d + 1])
    requires e == DigitEnd(t, d + 1)
    ensures IsDecimal(t[q..e])
  {
    var s := t[q..e];
    assert DigitEnd(s, 0) == d - q by { DigitEndShift(t, q, e, 0); }
    assert s[d - q + 1..] == t[d + 1..e];
  }

  lemma WholeIsDecimal(t: string, q: nat, d: nat)
    requires q <= |t| && d == DigitEnd(t, q) && d > q
    ensures IsDecimal(t[q..d])
  {
    assert DigitEnd(t[q..d], 0) == d - q by { DigitEndShift(t, q, d, 0); }
  }

  /** DigitEnd inside a slice is DigitEnd in the whole text, shifted. */
  lemma {:induction false} DigitEndShift(t: string, lo: nat, hi: nat, i: nat)
    requires lo <= hi <= |t| && i <= hi - lo
    requires hi == |t| || !IsDigit(t[hi]) || DigitEnd(t, lo + i) <= hi
    ensures DigitEnd(t[lo..hi], i) == (if DigitEnd(t, lo + i) <= hi then DigitEnd(t, lo + i) else hi) - lo
    decreases hi - lo - i
  {
    if i < hi - lo && IsDigit(t[lo + i]) {
      DigitEndShift(t, lo, hi, i + 1);
    }
  }

  /** parse_price: nothing for a missing or empty text; otherwise the first
      `$`-prefixed number once commas are removed. */
  function ParsePrice(text: Option<string>): (r: Option<real>)
    ensures text == None || text == Some("") ==> r == None
    ensures text.Some? && text.value != "" ==> var t := RemoveCommas(text.value);
      (r.Some? ==> exists p :: 0 <= p <= |t| && r == PriceAt(t, p) && forall q :: 0 <= q < p ==> PriceAt(t, q).None?)
    ensures text.Some? && text.value != "" ==> var t := RemoveCommas(text.value);
      (r.None? <==> forall p :: 0 <= p <= |t| ==> PriceAt(t, p).None?)
    ensures text.Some? && '$' !in text.value ==> r == None
    ensures r.Some? ==> r.value >= 0.0
  {
    if text == None || text.value == "" then None
    else
      var t := RemoveCommas(text.value);
      RemoveCommasKeeps(text.value, '$');
      var f := (p: nat) => PriceAt(t, p);
      assert forall p: nat :: f(p) == PriceAt(t, p);
      FirstMatch(f, 0, |t|)
  }

  lemma {:induction false} RemoveCommasKeeps(s: string, c: char)
    requires c != ','
    ensures c in RemoveCommas(s) <==> c in s
  {
    if s != [] {
      RemoveCommasKeeps(s[1..], c);
      assert s == [s[0]] + s[1..];
    }
  }

  /** A dollar sign followed by a whole number reads back as that number. */
  lemma ParsePriceWhole(n: nat)
    ensures ParsePrice(Some("$" + NatToString(n))) == Some(n as real)
  {
    var d := NatToString(n);
    var s := "$" + d;
    assert s[0] == '$' && s[1..] == d;
    NoCommasUnchanged(s);
    assert SkipSpace(s, 1) == 1;
    DigitEndAllDigits(s, 1);
    assert s[1..|s|] == d;
    NatToStringValue(n);
    DigitEndAllDigits(d, 0);
    assert d[..|d|] == d;
    assert DecimalValue(d) == n as real;
    assert PriceAt(s, 0) == Some(n as real);
  }

  /** Thousands separators are dropped before the search: "$1,299" reads
      as 1299, the number its digit groups spell together. */
  lemma ParsePriceGrouped(a: string, b: string)
    requires |a| > 0 && AllDigits(a) && AllDigits(b)
    ensures ParsePrice(Some("$" + a + "," + b)) == Some(DigitsValue(a + b) as real)
  {
    var t := "$" + (a + b);
    assert RemoveCommas("$" + a + "," + b) == t by {
      CommaBetweenDropped("$" + a, b);
      assert ("$" + a) + b == t;
    }
    assert PriceAt(t, 0) == Some(DigitsValue(a + b) as real) by {
      DollarDigits(a + b);
    }
  }

  /** A single comma between two comma-free texts is dropped. */
  lemma CommaBetweenDropped(x: string, y: string)
    requires forall i :: 0 <= i < |x| ==> x[i] != ','
    requires forall i :: 0 <= i < |y| ==> y[i] != ','
    ensures RemoveCommas(x + "," + y) == x + y
  {
    assert RemoveCommas(x + ",") == x by {
      RemoveCommasAppend(x, ",");
      NoCommasUnchanged(x);
      assert RemoveCommas(",") == [];
      assert x + [] == x;
    }
    RemoveCommasAppend(x + ",", y);
    NoCommasUnchanged(y);
  }

  /** A dollar sign and a run of digits is a whole price. */
  lemma DollarDigits(w: string)
    requires |w| > 0 && AllDigits(w)
    ensures PriceAt("$" + w, 0) == Some(DigitsValue(w) as real)
  {
    var t := "$" + w;
    assert t[1..] == w && !IsSpace(t[1]);
    assert SkipSpace(t, 1) == 1;
    DigitRun(t, 1, |t|);
    assert t[1..|t|] == w;
    DigitRun(w, 0, |w|);
    assert w[..|w|] == w;
  }

  lemma {:induction false} RemoveCommasAppend(a: string, b: string)
    ensures RemoveCommas(a + b) == RemoveCommas(a) + RemoveCommas(b)
  {
    if a == [] {
      assert a + b == b;
    } else {
      var h := if a[0] == ',' then [] else [a[0]];
      assert (a + b)[0] == a[0] && (a + b)[1..] == a[1..] + b;
      assert RemoveCommas(a + b) == h + RemoveCommas(a[1..] + b);
      RemoveCommasAppend(a[1..], b);
      assert h + (RemoveCommas(a[1..]) + RemoveCommas(b)) == (h + RemoveCommas(a[1..])) + RemoveCommas(b);
    }
  }

  /** A run of digits from `i` up to a non-digit (or the end) at `j`. */
  lemma DigitRun(s: string, i: nat, j: nat)
    requires i <= j <= |s| && (j == |s| || !IsDigit(s[j]))
    requires forall k :: i <= k < j ==> IsDigit(s[k])
    ensures DigitEnd(s, i) == j
  {
  }

  lemma {:induction false} NoCommasUnchanged(s: string)
    requires forall i :: 0 <= i < |s| ==> s[i] != ','
    ensures RemoveCommas(s) == s
  {
    if s != [] {
      NoCommasUnchanged(s[1..]);
      assert s == [s[0]] + s[1..];
    }
  }

  lemma {:induction false} DigitEndAllDigits(s: string, i: nat)
    requires i <= |s|
    requires forall k :: i <= k < |s| ==> IsDigit(s[k])
    ensures DigitEnd(s, i) == |s|
    decreases |s| - i
  {
    if i < |s| {
      DigitEndAllDigits(s, i + 1);
    }
  }

  // ---------------------------------------------------------------------
  // normalize_price
  // ---------------------------------------------------------------------

  /** End of the run of ASCII letters starting at `i`. */
  function LetterEnd(s: string, i: nat): (r: nat)
    requires i <= |s|
    ensures i <= r <= |s|
    ensures forall k :: i <= k < r ==> IsLetter(s[k])
    ensures r == |s| || !IsLetter(s[r])
    decreases |s| - i
  {
    if i < |s| && IsLetter(s[i]) then LetterEnd(s, i + 1) else i
  }

  /** The unit-price pattern (a dollar sign, spaces, a decimal number,
      spaces, a slash, spaces, then letters a-z or A-Z) tried at `p`: the
      number is the whole digit-and-dot run (a space or the slash must follow
      it) and the captured unit is the whole run of letters after the
      slash. */
  function UnitPriceAt(t: string, p: nat): (r: Option<(real, string)>)
    ensures r.Some? ==> |r.value.1| > 0 && AllLetters(r.value.1)
  {
    if p >= |t| || t[p] != '$' then None
    else
      var q := SkipSpace(t, p + 1);
      var e := NumRunEnd(t, q);
      if !IsDecimal(t[q..e]) then None
      else
        var s := SkipSpace(t, e);
        if s >= |t| || t[s] != '/' then None
        else
          var w := SkipSpace(t, s + 1);
          var we := LetterEnd(t, w);
          if we == w then None
          else Some((DecimalValue(t[q..e]), t[w..we]))
  }

  /** The unit-price search over the whole text: the match at the first
      position where the pattern matches, and none only when it matches
      nowhere. */
  function FindUnitPrice(t: string): (r: Option<(real, string)>)
    ensures r.Some? ==> |r.value.1| > 0 && AllLetters(r.value.1)
    ensures r.Some? ==> exists p :: 0 <= p <= |t| && r == UnitPriceAt(t, p) && forall q :: 0 <= q < p ==> UnitPriceAt(t, q).None?
    ensures r.None? <==> forall p :: 0 <= p <= |t| ==> UnitPriceAt(t, p).None?
  {
    var f := (p: nat) => UnitPriceAt(t, p);
    assert forall p: nat :: f(p) == UnitPriceAt(t, p);
    FirstMatch(f, 0, |t|)
  }

  /** The pairs convert_unit_price accepts. */
  predicate Convertible(src: Unit, tgt: Target) {
    src == TargetUnit(tgt) || (src, tgt) in
      {(Oz, PerLb), (Lb, PerOz), (Oz, PerGal), (Gal, PerOz), (L, PerGal), (Gal, PerL)}
  }

  /** The price derived from the package size: total over quantity, then
      converted; a missing or zero quantity (falsy in Python) gives
      nothing. The result, times the quantity, is the total price measured
      per target unit. */
  function SizePrice(priceTotal: real, size: Option<(real, Unit)>, target: Target): (r: Option<real>)
    ensures r.Some? <==> (size.Some? && size.value.0 != 0.0 && Convertible(size.value.1, target))
    ensures r.Some? ==> r.value * size.value.0 * OuncesIn(size.value.1) == priceTotal * OuncesIn(TargetUnit(target))
  {
    match size
    case None => None
    case Some((qty, unit)) =>
      if qty == 0.0 then None
      else
        var r := ConvertUnitPrice(priceTotal / qty, unit, target);
        if r.Some? then
          PerQuantity(r.value, qty, priceTotal, OuncesIn(unit), OuncesIn(TargetUnit(target)));
          r
        else r
  }

  lemma PerQuantity(x: real, qty: real, total: real, a: real, b: real)
    requires qty != 0.0 && x * a == (total / qty) * b
    ensures x * qty * a == total * b
  {
    calc {
      x * qty * a;
      (x * a) * qty;
      (total / qty) * b * qty;
      total * b;
    }
  }

  /** normalize_price: a vendor unit price `$value/unit` whose unit is known
      decides the result, even when that conversion is refused; otherwise
      the price is derived from the package size in the name. */
  function NormalizePrice(priceTotal: real, name: string, unitPriceText: Option<string>, target: Target): (r: Option<real>)
    ensures (unitPriceText == None || unitPriceText == Some("")) ==> r == SizePrice(priceTotal, ExtractSize(name), target)
    ensures unitPriceText.Some? && (forall p :: 0 <= p <= |unitPriceText.value| ==> UnitPriceAt(unitPriceText.value, p).None?) ==>
      r == SizePrice(priceTotal, ExtractSize(name), target)
    ensures unitPriceText.Some? && unitPriceText.value != "" && FindUnitPrice(unitPriceText.value).Some? ==>
      var (val, word) := FindUnitPrice(unitPriceText.value).value;
      r == if IdentifyUnit(word).Some? then ConvertUnitPrice(val, IdentifyUnit(word).value, target)
           else SizePrice(priceTotal, ExtractSize(name), target)
  {
    if unitPriceText.Some? && unitPriceText.value != "" then
      match FindUnitPrice(unitPriceText.value)
      case Some((val, word)) =>
        (match IdentifyUnit(word)
         case Some(u) => ConvertUnitPrice(val, u, target)
         case None => SizePrice(priceTotal, ExtractSize(name), target))
      case None => SizePrice(priceTotal, ExtractSize(name), target)
    else SizePrice(priceTotal, ExtractSize(name), target)
  }

  /** The vendor unit price wins over the package size whenever its unit is
      recognised: neither the total nor the name matter then. */
  lemma UnitPriceTextPreferred(priceTotal: real, name: string, text: string, target: Target)
    requires FindUnitPrice(text).Some?
    requires WordUnit(Lower(FindUnitPrice(text).value.1)).Some?
    ensures NormalizePrice(priceTotal, name, Some(text), target) ==
      ConvertUnitPrice(FindUnitPrice(text).value.0, WordUnit(Lower(FindUnitPrice(text).value.1)).value, target)
  {
    IdentifyWord(FindUnitPrice(text).value.1);
  }

  /** When the unit-price text names no known unit, the size-derived price
      is used. */
  lemma UnknownUnitFallsThrough(priceTotal: real, name: string, text: string, target: Target)
    requires FindUnitPrice(text).Some?
    requires WordUnit(Lower(FindUnitPrice(text).value.1)).None?
    ensures NormalizePrice(priceTotal, name, Some(text), target) == SizePrice(priceTotal, ExtractSize(name), target)
  {
    IdentifyWord(FindUnitPrice(text).value.1);
  }

  /** A vendor unit price per fluid ounce is not used: the pattern captures
      only the letters "fl", which name no unit, so the price comes from the
      package size. */
  lemma FluidOunceTextFallsThrough(priceTotal: real, name: string, target: Target)
    ensures NormalizePrice(priceTotal, name, Some("$0.25/fl oz"), target) == SizePrice(priceTotal, ExtractSize(name), target)
  {
    var t := "$0.25/fl oz";
    FluidOunceMatch();
    FlNamesNoUnit();
    UnknownUnitFallsThrough(priceTotal, name, t, target);
  }

  lemma FlNamesNoUnit()
    ensures WordUnit(Lower("fl")) == None
  {
    var w := Lower("fl");
    assert w[0] == 'f' && w[1] == 'l';
    assert |w| == 2;
    forall u ensures w !in Aliases(u) {
      forall a | a in Aliases(u) ensures w != a {
        if |a| == 2 {
          assert a[0] != 'f' || a[1] != 'l';
        }
      }
    }
    assert !At(w, 0, "doz");
  }

  lemma FluidOunceMatch()
    ensures FindUnitPrice("$0.25/fl oz") == Some((1.0 / 4.0, "fl"))
  {
    var t := "$0.25/fl oz";
    assert !IsSpace(t[1]) && !IsSpace(t[5]) && !IsSpace(t[6]);
    assert NumRunEnd(t, 1) == 5 by {
      assert forall k :: 1 <= k < 5 ==> IsNumChar(t[k]);
      assert !IsNumChar(t[5]);
    }
    assert LetterEnd(t, 6) == 8 by {
      assert IsLetter(t[6]) && IsLetter(t[7]) && !IsLetter(t[8]);
    }
    assert SkipSpace(t, 1) == 1 && SkipSpace(t, 5) == 5 && SkipSpace(t, 6) == 6;
    assert t[1..5] == "0.25" && t[5] == '/' && t[6..8] == "fl";
    QuarterDecimal(t[1..5]);
    assert UnitPriceAt(t, 0) == Some((1.0 / 4.0, "fl"));
    FirstMatchAt((p: nat) => UnitPriceAt(t, p), 0, |t|, 0);
  }

  lemma QuarterDecimal(n: string)
    requires n == "0.25"
    ensures IsDecimal(n) && DecimalValue(n) == 1.0 / 4.0
  {
    DigitRun(n, 0, 1);
    DigitRun(n, 2, 4);
    assert n[..1] == "0" && n[2..] == "25";
    assert DigitsValue("25") == 25 by {
      assert "25"[..1] == "2" && "2"[..0] == "";
    }
    assert DigitsValue("0") == 0 by {
      assert "0"[..0] == "";
    }
    assert Pow10(2) == 100;
  }

  /** A zero package quantity never leads to a division: the size path
      yields nothing. */
  lemma ZeroQuantityGivesNothing(priceTotal: real, name: string, target: Target)
    requires ExtractSize(name).Some? && ExtractSize(name).value.0 == 0.0
    ensures NormalizePrice(priceTotal, name, None, target) == None
  {
  }
}
