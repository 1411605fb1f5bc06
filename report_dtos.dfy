/** The two report DTOs as the validation pipe sees them: each decorator is
    a (property, constraint) rule, and an object is accepted exactly when no
    rule is violated. For the estimate query the `@Transform` functions run
    first, so `year` and `mileage` are checked after `parseInt`. */
module ReportDtos {
  import opened EcmaParseInt

  /** The JavaScript values a property can hold. `Number` is a finite
      number; `NotANumber` is NaN. */
  datatype JsValue = Undefined | Null | Boolean(b: bool) | Number(x: real) | NotANumber | Str(s: string) | Object

  /** The class-validator decorators the DTOs use. */
  datatype Constraint = IsString | IsNumber | Min(bound: real) | Max(bound: real) | IsLongitude | IsLatitude

  /** Whether a value satisfies a constraint. `Min` and `Max` compare only
      numbers, and NaN fails every comparison; `IsNumber` refuses NaN. */
  predicate Holds(c: Constraint, v: JsValue)
    ensures Holds(c, v) ==> if c == IsString then v.Str? else v.Number?
  {
    match c
    case IsString => v.Str?
    case IsNumber => v.Number?
    case Min(bound) => v.Number? && v.x >= bound
    case Max(bound) => v.Number? && v.x <= bound
    case IsLongitude => v.Number? && -180.0 <= v.x <= 180.0
    case IsLatitude => v.Number? && -90.0 <= v.x <= 90.0
  }

  /** The properties the two DTOs declare. With `whitelist: true` the pipe
      strips every other property, so a validated object is a map from these. */
  datatype Field = Make | Model | Year | Mileage | Lng | Lat | Price

  /** The property name in the request. */
  function Name(f: Field): string {
    match f
    case Make => "make"
    case Model => "model"
    case Year => "year"
    case Mileage => "mileage"
    case Lng => "lng"
    case Lat => "lat"
    case Price => "price"
  }

  /** One decorator on one property. */
  datatype Rule = Rule(property: Field, constraint: Constraint)

  /** `obj[name]`: a missing property reads as `undefined`. */
  function Property(obj: map<Field, JsValue>, f: Field): JsValue {
    if f in obj then obj[f] else Undefined
  }

  /** A number in `[lo, hi]`, the conjunction `@IsNumber @Min(lo) @Max(hi)` stands for. */
  predicate InRange(v: JsValue, lo: real, hi: real) {
    v.Number? && lo <= v.x <= hi
  }

  /** `@IsNumber() @Min(lo) @Max(hi)` on one property. */
  function RangeRules(f: Field, lo: real, hi: real): seq<Rule> {
    [Rule(f, IsNumber), Rule(f, Min(lo)), Rule(f, Max(hi))]
  }

  /** `CreateReportDto`. */
  const CreateReportRules: seq<Rule> :=
    [Rule(Make, IsString), Rule(Model, IsString)]
    + RangeRules(Year, 1930.0, 2050.0)
    + RangeRules(Mileage, 0.0, 1000000.0)
    + [Rule(Lng, IsLongitude), Rule(Lat, IsLatitude)]
    + RangeRules(Price, 0.0, 1000000.0)

  /** `GetEstimateDto`. */
  const GetEstimateRules: seq<Rule> :=
    [Rule(Make, IsString), Rule(Model, IsString)]
    + RangeRules(Year, 1930.0, 2050.0)
    + RangeRules(Mileage, 0.0, 1000000.0)
    + [Rule(Lng, IsLongitude), Rule(Lat, IsLatitude)]

  /** The validation errors: the rules the object breaks, in declaration order. */
  function Violations(rules: seq<Rule>, obj: map<Field, JsValue>): (errs: seq<Rule>)
    ensures forall r :: r in errs <==> r in rules && !Holds(r.constraint, Property(obj, r.property))
    ensures |errs| <= |rules|
  {
    if rules == [] then []
    else
      var rest := Violations(rules[1..], obj);
      if Holds(rules[0].constraint, Property(obj, rules[0].property)) then rest else [rules[0]] + rest
  }

  /** The pipe lets the request through when there is no validation error. */
  predicate Accepted(rules: seq<Rule>, obj: map<Field, JsValue>)
    ensures Accepted(rules, obj) ==> forall r :: r in rules ==> Holds(r.constraint, Property(obj, r.property))
  {
    Violations(rules, obj) == []
  }

  /** Accepted exactly when every rule holds. */
  lemma AcceptedIffAllHold(rules: seq<Rule>, obj: map<Field, JsValue>)
    ensures Accepted(rules, obj) <==> forall r :: r in rules ==> Holds(r.constraint, Property(obj, r.property))
  {
    if !Accepted(rules, obj) {
      var e := Violations(rules, obj)[0];
      assert e in Violations(rules, obj);
    }
  }

  /** The rules the estimate query shares with the report body hold exactly
      when make and model are strings, year is a number in 1930..2050,
      mileage in 0..1000000, lng in -180..180 and lat in -90..90. */
  predicate EstimateFieldsValid(obj: map<Field, JsValue>) {
    && Property(obj, Make).Str?
    && Property(obj, Model).Str?
    && InRange(Property(obj, Year), 1930.0, 2050.0)
    && InRange(Property(obj, Mileage), 0.0, 1000000.0)
    && InRange(Property(obj, Lng), -180.0, 180.0)
    && InRange(Property(obj, Lat), -90.0, 90.0)
  }

  /** An estimate object is accepted exactly when its six fields are valid. */
  lemma EstimateRulesAccepted(obj: map<Field, JsValue>)
    ensures Accepted(GetEstimateRules, obj) <==> EstimateFieldsValid(obj)
  {
    var strings := [Rule(Make, IsString), Rule(Model, IsString)];
    var year := RangeRules(Year, 1930.0, 2050.0);
    var mileage := RangeRules(Mileage, 0.0, 1000000.0);
    var coordinates := [Rule(Lng, IsLongitude), Rule(Lat, IsLatitude)];
    AcceptedAppend(strings + year + mileage, coordinates, obj);
    AcceptedAppend(strings + year, mileage, obj);
    AcceptedAppend(strings, year, obj);
    AcceptedIffAllHold(strings, obj);
    AcceptedIffAllHold(coordinates, obj);
    RangeRulesAccepted(Year, 1930.0, 2050.0, obj);
    RangeRulesAccepted(Mileage, 0.0, 1000000.0, obj);
  }

  /** The three decorators of a range hold exactly when the property is a
      number within it. */
  lemma RangeRulesAccepted(f: Field, lo: real, hi: real, obj: map<Field, JsValue>)
    ensures Accepted(RangeRules(f, lo, hi), obj) <==> InRange(Property(obj, f), lo, hi)
  {
    AcceptedIffAllHold(RangeRules(f, lo, hi), obj);
  }

  /** The decorators on `price`, which only the report body carries. */
  const PriceRules: seq<Rule> := RangeRules(Price, 0.0, 1000000.0)

  /** The report rules are the estimate rules followed by those on `price`. */
  lemma ReportRulesAreEstimateRulesAndPrice()
    ensures CreateReportRules == GetEstimateRules + PriceRules
  {
  }

  /** Validating against two rule lists at once fails exactly when either fails. */
  lemma AcceptedAppend(a: seq<Rule>, b: seq<Rule>, obj: map<Field, JsValue>)
    ensures Accepted(a + b, obj) <==> Accepted(a, obj) && Accepted(b, obj)
  {
    AcceptedIffAllHold(a, obj);
    AcceptedIffAllHold(b, obj);
    AcceptedIffAllHold(a + b, obj);
  }

  /** A report body is accepted exactly when make and model are strings,
      year is in 1930..2050, mileage and price in 0..1000000, lng in
      -180..180 and lat in -90..90, all at once. */
  lemma CreateReportAccepted(obj: map<Field, JsValue>)
    ensures Accepted(CreateReportRules, obj) <==>
              EstimateFieldsValid(obj) && InRange(Property(obj, Price), 0.0, 1000000.0)
  {
    ReportRulesAreEstimateRulesAndPrice();
    AcceptedAppend(GetEstimateRules, PriceRules, obj);
    EstimateRulesAccepted(obj);
    RangeRulesAccepted(Price, 0.0, 1000000.0, obj);
  }

  /** A report body that passes is also a valid estimate query object. */
  lemma ReportAcceptedIsEstimateAccepted(obj: map<Field, JsValue>)
    ensures Accepted(CreateReportRules, obj) ==> Accepted(GetEstimateRules, obj)
  {
    ReportRulesAreEstimateRulesAndPrice();
    AcceptedAppend(GetEstimateRules, PriceRules, obj);
  }

  /** The `@Transform` of a query property: `parseInt` for year and
      mileage, `parseFloat` for lng and lat, the raw string otherwise. */
  function TransformValue(f: Field, raw: string, parseFloat: string -> JsValue): (v: JsValue)
    ensures (f == Year || f == Mileage) ==> v == NotANumber || v.Number?
    ensures (f == Year || f == Mileage) ==> (v.Number? <==> StartsWithNumber(UnsignedPart(raw)))
    ensures (f == Make || f == Model || f == Price) ==> v == Str(raw)
  {
    match f
    case Year | Mileage =>
      (match ParseInt(raw)
       case NaN => NotANumber
       case Int(n) => Number(n as real))
    case Lng | Lat => parseFloat(raw)
    case _ => Str(raw)
  }

  /** The query object after the transforms and the whitelist: only the six
      properties `GetEstimateDto` declares are kept (`price` is not one of
      them), and one absent from the query stays absent. */
  function TransformEstimate(query: map<string, string>, parseFloat: string -> JsValue): (obj: map<Field, JsValue>)
    ensures forall f :: f in obj <==> f != Price && Name(f) in query
    ensures forall f :: f in obj ==> obj[f] == TransformValue(f, query[Name(f)], parseFloat)
  {
    map f: Field | f != Price && Name(f) in query :: TransformValue(f, query[Name(f)], parseFloat)
  }

  /** Whether the query's raw value for `name` parses to an integer in
      `[lo, hi]`. */
  predicate ParsesInRange(query: map<string, string>, name: string, lo: int, hi: int) {
    name in query && ParseInt(query[name]).Int? && lo <= ParseInt(query[name]).value <= hi
  }

  /** The range test on a transformed year or mileage is the range test on
      the integer `parseInt` returns. */
  lemma ParsedInRange(query: map<string, string>, parseFloat: string -> JsValue, f: Field, lo: int, hi: int)
    requires f == Year || f == Mileage
    ensures InRange(Property(TransformEstimate(query, parseFloat), f), lo as real, hi as real) <==>
              ParsesInRange(query, Name(f), lo, hi)
  {
  }

  /** The estimate query in its own terms: make and model are present,
      `parseInt` of year gives 1930..2050 and of mileage 0..1000000, and
      `parseFloat` of lng and lat gives numbers within the coordinate ranges. */
  predicate EstimateQueryValid(query: map<string, string>, parseFloat: string -> JsValue) {
    && "make" in query && "model" in query
    && ParsesInRange(query, "year", 1930, 2050)
    && ParsesInRange(query, "mileage", 0, 1000000)
    && "lng" in query && InRange(parseFloat(query["lng"]), -180.0, 180.0)
    && "lat" in query && InRange(parseFloat(query["lat"]), -90.0, 90.0)
  }

  /** An estimate query passes the pipe exactly when it is valid in those terms. */
  lemma GetEstimateAccepted(query: map<string, string>, parseFloat: string -> JsValue)
    ensures Accepted(GetEstimateRules, TransformEstimate(query, parseFloat)) <==> EstimateQueryValid(query, parseFloat)
  {
    var obj := TransformEstimate(query, parseFloat);
    EstimateRulesAccepted(obj);
    TransformedFieldsValid(query, parseFloat);
  }

  /** The six field checks on the transformed query, restated on the raw query. */
  lemma TransformedFieldsValid(query: map<string, string>, parseFloat: string -> JsValue)
    ensures EstimateFieldsValid(TransformEstimate(query, parseFloat)) <==> EstimateQueryValid(query, parseFloat)
  {
    var obj := TransformEstimate(query, parseFloat);
    ParsedInRange(query, parseFloat, Year, 1930, 2050);
    ParsedInRange(query, parseFloat, Mileage, 0, 1000000);
    TransformedString(query, parseFloat, Make);
    TransformedString(query, parseFloat, Model);
    TransformedCoordinate(query, parseFloat, Lng, -180.0, 180.0);
    TransformedCoordinate(query, parseFloat, Lat, -90.0, 90.0);
    FieldsValidByField(obj, query, parseFloat);
  }

  /** The two validity predicates agree once they agree field by field. */
  lemma FieldsValidByField(obj: map<Field, JsValue>, query: map<string, string>, parseFloat: string -> JsValue)
    requires Property(obj, Make).Str? <==> "make" in query
    requires Property(obj, Model).Str? <==> "model" in query
    requires InRange(Property(obj, Year), 1930 as real, 2050 as real) <==> ParsesInRange(query, "year", 1930, 2050)
    requires InRange(Property(obj, Mileage), 0 as real, 1000000 as real) <==> ParsesInRange(query, "mileage", 0, 1000000)
    requires InRange(Property(obj, Lng), -180.0, 180.0) <==> "lng" in query && InRange(parseFloat(query["lng"]), -180.0, 180.0)
    requires InRange(Property(obj, Lat), -90.0, 90.0) <==> "lat" in query && InRange(parseFloat(query["lat"]), -90.0, 90.0)
    ensures EstimateFieldsValid(obj) <==> EstimateQueryValid(query, parseFloat)
  {
  }

  /** make and model are kept as strings, so they are strings exactly when present. */
  lemma TransformedString(query: map<string, string>, parseFloat: string -> JsValue, f: Field)
    requires f == Make || f == Model
    ensures Property(TransformEstimate(query, parseFloat), f).Str? <==> Name(f) in query
  {
    TransformedProperty(query, parseFloat, f);
  }

  /** lng and lat are in range exactly when present and `parseFloat` puts them in range. */
  lemma TransformedCoordinate(query: map<string, string>, parseFloat: string -> JsValue,
                              f: Field, lo: real, hi: real)
    requires f == Lng || f == Lat
    ensures InRange(Property(TransformEstimate(query, parseFloat), f), lo, hi) <==>
              Name(f) in query && InRange(parseFloat(query[Name(f)]), lo, hi)
  {
    TransformedProperty(query, parseFloat, f);
  }

  /** A property of the transformed query is the transform of the raw
      value, or `undefined` when the query lacks it or it is `price`. */
  lemma TransformedProperty(query: map<string, string>, parseFloat: string -> JsValue, f: Field)
    ensures Property(TransformEstimate(query, parseFloat), f)
         == if f != Price && Name(f) in query then TransformValue(f, query[Name(f)], parseFloat) else Undefined
  {
  }

  /** `year=2000abc` passes the year checks: only the leading digits count. */
  lemma EstimateYearWithTrailingText(query: map<string, string>, parseFloat: string -> JsValue)
    requires "year" in query && query["year"] == "2000abc"
    ensures InRange(Property(TransformEstimate(query, parseFloat), Year), 1930.0, 2050.0)
  {
    ParseIntTrailingGarbage();
    YearParsedInRange(query, parseFloat, 2000);
  }

  /** A year that `parseInt` reads as an integer in 1930..2050 passes the year checks. */
  lemma YearParsedInRange(query: map<string, string>, parseFloat: string -> JsValue, year: int)
    requires "year" in query && ParseInt(query["year"]) == Int(year) && 1930 <= year <= 2050
    ensures InRange(Property(TransformEstimate(query, parseFloat), Year), 1930.0, 2050.0)
  {
    assert ParsesInRange(query, "year", 1930, 2050);
    ParsedInRange(query, parseFloat, Year, 1930, 2050);
  }

  /** A year with no digit right after the white space and sign, such as
      `abc2000`, parses to NaN and fails `@IsNumber`, so the query is refused. */
  lemma EstimateYearWithoutDigits(query: map<string, string>, parseFloat: string -> JsValue)
    requires "year" in query
    requires var u := UnsignedPart(query["year"]); u == [] || !IsDecimalDigit(u[0])
    ensures !Holds(IsNumber, Property(TransformEstimate(query, parseFloat), Year))
    ensures !Accepted(GetEstimateRules, TransformEstimate(query, parseFloat))
  {
    ParseIntWithoutLeadingDigit(query["year"]);
    EstimateRulesAccepted(TransformEstimate(query, parseFloat));
  }

  /** The same for `mileage`. */
  lemma EstimateMileageWithoutDigits(query: map<string, string>, parseFloat: string -> JsValue)
    requires "mileage" in query
    requires var u := UnsignedPart(query["mileage"]); u == [] || !IsDecimalDigit(u[0])
    ensures !Holds(IsNumber, Property(TransformEstimate(query, parseFloat), Mileage))
    ensures !Accepted(GetEstimateRules, TransformEstimate(query, parseFloat))
  {
    ParseIntWithoutLeadingDigit(query["mileage"]);
    EstimateRulesAccepted(TransformEstimate(query, parseFloat));
  }

  /** A `price` in the query never reaches the estimate object. */
  lemma EstimateDropsPrice(query: map<string, string>, parseFloat: string -> JsValue, price: string)
    ensures TransformEstimate(query["price" := price], parseFloat) == TransformEstimate(query, parseFloat)
  {
    var a := TransformEstimate(query["price" := price], parseFloat);
    var b := TransformEstimate(query, parseFloat);
    forall f
      ensures f in a <==> f in b
      ensures f in a ==> a[f] == b[f]
    {
      if f != Price {
        assert Name(f) != "price";
      }
    }
  }

  /** What is sent as `price` never affects the estimate decision. */
  lemma EstimateIgnoresPrice(obj: map<Field, JsValue>, price: JsValue)
    ensures Accepted(GetEstimateRules, obj[Price := price]) == Accepted(GetEstimateRules, obj)
  {
    EstimateRulesAccepted(obj);
    EstimateRulesAccepted(obj[Price := price]);
  }
}
