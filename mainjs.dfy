/** The calculators and the CSV export of the browser script (static/js/main.js).
    JavaScript numbers are reals extended with the three non-finite values a
    division by zero can produce. */
module MainJs {
  import opened Wrappers
  import opened Numerics
  import Calculations

  // --------------------------------------------------------------- numbers

  datatype JsNumber = Finite(value: real) | PosInfinity | NegInfinity | NaN

  /** a / b in IEEE arithmetic for a divisor that is zero only as +0. */
  function JsDivide(a: real, b: real): (q: JsNumber)
    requires b >= 0.0
    ensures b != 0.0 ==> q == Finite(a / b)
    ensures b == 0.0 ==> (q == PosInfinity <==> a > 0.0) && (q == NegInfinity <==> a < 0.0) && (q == NaN <==> a == 0.0)
  {
    if b != 0.0 then Finite(a / b)
    else if a > 0.0 then PosInfinity
    else if a < 0.0 then NegInfinity
    else NaN
  }

  /** x < c; NaN compares false with everything. */
  predicate JsLess(x: JsNumber, c: real)
  {
    match x
    case Finite(v) => v < c
    case NegInfinity => true
    case _ => false
  }

  // ------------------------------------------------------------------- BMI

  /** calculateBMI: weight / (height/100)², with no guard on the height. */
  function CalculateBmiJs(weight: real, height: real): (bmi: JsNumber)
    ensures height != 0.0 ==> bmi == Finite(Calculations.BmiExact(weight, height))
    ensures height == 0.0 ==> (bmi == PosInfinity <==> weight > 0.0) && (bmi == NegInfinity <==> weight < 0.0) &&
                              (bmi == NaN <==> weight == 0.0)
  {
    var m := Calculations.HeightInMeters(height);
    assert height != 0.0 ==> m != 0.0;
    assert (m != 0.0 ==> Square(m) > 0.0) && Square(m) >= 0.0 by {
      if m != 0.0 {
        SquarePositive(m);
      }
    }
    JsDivide(weight, Square(m))
  }

  /** For a positive height the browser shows the unrounded BMI the server rounds to two decimals. */
  lemma BmiAgreesWithServer(weight: real, height: real)
    requires height > 0.0
    ensures CalculateBmiJs(weight, height).Finite?
    ensures Abs(CalculateBmiJs(weight, height).value - Calculations.CalculateBmi(weight, height)) <= 0.005
  {
    var exact := Calculations.BmiExact(weight, height);
    var rounded := Calculations.CalculateBmi(weight, height);
    assert Abs(rounded - exact) <= 0.005;
  }

  /** For a positive weight, a negative height gives the server's 0 but a positive BMI in the browser. */
  lemma NegativeHeightDiffers(weight: real, height: real)
    requires height < 0.0 && weight > 0.0
    ensures Calculations.CalculateBmi(weight, height) == 0.0
    ensures CalculateBmiJs(weight, height).Finite? && CalculateBmiJs(weight, height).value > 0.0
  {
    SquarePositive(Calculations.HeightInMeters(height));
  }

  // ---------------------------------------------------------- BMI category

  /** The object getBMICategory returns. */
  datatype BmiBadge = BmiBadge(category: string, color: string)

  function Color(c: Calculations.BmiCategory): string
  {
    match c
    case Underweight => "info"
    case Normal => "success"
    case Overweight => "warning"
    case Obese => "danger"
  }

  /** The band a JavaScript number falls into under the comparisons of getBMICategory. */
  function JsBand(bmi: JsNumber): (c: Calculations.BmiCategory)
    ensures bmi.Finite? ==> c == Calculations.BmiBand(bmi.value)
    ensures bmi == NegInfinity ==> c == Calculations.Underweight
    ensures bmi == PosInfinity || bmi == NaN ==> c == Calculations.Obese
  {
    if JsLess(bmi, 18.5) then Calculations.Underweight
    else if JsLess(bmi, 25.0) then Calculations.Normal
    else if JsLess(bmi, 30.0) then Calculations.Overweight
    else Calculations.Obese
  }

  /** getBMICategory: the label and colour of the BMI's band. */
  function GetBmiCategoryJs(bmi: JsNumber): (b: BmiBadge)
    ensures b.category == JsBand(bmi).Label() && b.color == Color(JsBand(bmi))
    ensures bmi.Finite? ==> b.category == Calculations.GetBmiCategory(bmi.value)
  {
    if JsLess(bmi, 18.5) then BmiBadge("น้ำหนักน้อย", "info")
    else if JsLess(bmi, 25.0) then BmiBadge("น้ำหนักปกติ", "success")
    else if JsLess(bmi, 30.0) then BmiBadge("น้ำหนักเกิน", "warning")
    else BmiBadge("อ้วน", "danger")
  }

  /** Each colour belongs to one band, so the colour alone tells the category. */
  lemma ColorInjective(c: Calculations.BmiCategory, d: Calculations.BmiCategory)
    ensures Color(c) == Color(d) <==> c == d
  {
    if c != d {
      assert Color(c)[0] != Color(d)[0] || |Color(c)| != |Color(d)|;
    }
  }

  /** With zero height and zero weight the BMI is NaN, and NaN is labelled obese. */
  lemma ZeroInputsLabelledObese()
    ensures CalculateBmiJs(0.0, 0.0) == NaN
    ensures GetBmiCategoryJs(CalculateBmiJs(0.0, 0.0)) == BmiBadge("อ้วน", "danger")
  {
  }

  // ------------------------------------------------------ calorie estimate

  /** The MET table of estimateCalories. */
  const JsMetValues: map<string, real> := map[
    "walking_slow" := 2.5,
    "walking_moderate" := 3.5,
    "walking_fast" := 4.3,
    "jogging" := 7.0,
    "running" := 9.8,
    "cycling_leisure" := 4.0,
    "cycling_moderate" := 8.0,
    "swimming" := 6.0,
    "weight_training" := 3.5,
    "yoga" := 2.5,
    "aerobics" := 6.5,
    "basketball" := 8.0,
    "soccer" := 10.0,
    "tennis" := 7.3,
    "badminton" := 5.5,
    "dancing" := 4.8
  ]

  /** The MET used for an activity type the table does not know. */
  const FallbackMet := 3.5

  /** metValues[activityType] || 3.5: every entry is non-zero, so the table value when present. */
  function MetFor(activityType: string): (met: real)
    ensures activityType in JsMetValues ==> met == JsMetValues[activityType]
    ensures activityType !in JsMetValues ==> met == FallbackMet
    ensures met > 0.0
  {
    if activityType in JsMetValues && JsMetValues[activityType] != 0.0 then JsMetValues[activityType]
    else FallbackMet
  }

  /** met · weight · hours before rounding. */
  function EstimateExact(met: real, duration: real, weight: real): real
  {
    Product(Product(met, weight), duration / 60.0)
  }

  /** estimateCalories: the nearest whole number of kilocalories; it never fails. */
  function EstimateCaloriesJs(activityType: string, duration: real, weight: real): (kcal: int)
    ensures Abs(kcal as real - EstimateExact(MetFor(activityType), duration, weight)) <= 0.5
  {
    MathRound(EstimateExact(MetFor(activityType), duration, weight))
  }

  /** An unknown type is estimated like a 3.5-MET activity such as moderate walking. */
  lemma UnknownActivityFallsBack(activityType: string, duration: real, weight: real)
    requires activityType !in JsMetValues
    ensures EstimateCaloriesJs(activityType, duration, weight) == EstimateCaloriesJs("walking_moderate", duration, weight)
  {
    assert MetFor("walking_moderate") == FallbackMet;
  }

  lemma JsZeroDuration(activityType: string, weight: real)
    ensures EstimateCaloriesJs(activityType, 0.0, weight) == 0
  {
    assert EstimateExact(MetFor(activityType), 0.0, weight) == 0.0;
  }

  /** For a non-negative weight, a longer activity is never estimated lower. */
  lemma JsDurationMonotone(activityType: string, d1: real, d2: real, weight: real)
    requires weight >= 0.0 && d1 <= d2
    ensures EstimateCaloriesJs(activityType, d1, weight) <= EstimateCaloriesJs(activityType, d2, weight)
  {
    var m := Product(MetFor(activityType), weight);
    MulMonotone(0.0, MetFor(activityType), weight);
    MulMonotone(d1 / 60.0, d2 / 60.0, m);
    MathRoundMonotone(EstimateExact(MetFor(activityType), d1, weight), EstimateExact(MetFor(activityType), d2, weight));
  }

  /** Half an hour of jogging at 70 kg: 245 kcal in the browser, 294 kcal on the server. */
  lemma JoggingDiffersFromServer()
    ensures EstimateCaloriesJs("jogging", 30.0, 70.0) == 245
    ensures Calculations.EstimateCaloriesBurned("jogging", 30, 70.0) == Ok(294.0)
  {
    assert EstimateExact(7.0, 30.0, 70.0) == 245.0;
    Calculations.JoggingExample();
  }

  /** The browser knows every activity the server knows (with the basketball key corrected),
      except fast cycling, which it estimates with the fallback. */
  lemma ActivityNamesAgree()
    ensures JsMetValues.Keys == Calculations.IntendedMetValues.Keys - {"cycling_fast"}
    ensures MetFor("cycling_fast") == FallbackMet
  {
  }

  // ----------------------------------------------------------- CSV export

  /** A property value of an exported object: a string, null or undefined, or anything else
      (given by the text Array.prototype.join makes of it). */
  datatype JsValue = JsString(s: string) | JsNullish | JsOther(text: string)

  /** An exported object: its own keys with their values, in key order. */
  type Row = seq<(string, JsValue)>

  /** What convertToCSV is given. */
  datatype CsvInput = NotAnArray | AnArray(rows: seq<Row>)

  /** Object.keys. */
  function Keys(row: Row): (ks: seq<string>)
    ensures |ks| == |row|
    ensures forall i :: 0 <= i < |row| ==> ks[i] == row[i].0
  {
    seq(|row|, i requires 0 <= i < |row| => row[i].0)
  }

  /** row[key]: undefined for a key the object does not have. */
  function Lookup(row: Row, key: string): (v: JsValue)
    ensures v == JsNullish || exists i :: 0 <= i < |row| && row[i] == (key, v)
    ensures (forall i :: 0 <= i < |row| ==> row[i].0 != key) ==> v == JsNullish
  {
    if row == [] then JsNullish
    else if row[0].0 == key then row[0].1
    else
      var v := Lookup(row[1..], key);
      assert v != JsNullish ==> row[1..] != [];
      v
  }

  /** A key the object has gives the value of its first pair with that key. */
  lemma {:induction false} LookupFirstMatch(row: Row, key: string, i: int)
    requires 0 <= i < |row| && row[i].0 == key
    requires forall k :: 0 <= k < i ==> row[k].0 != key
    ensures Lookup(row, key) == row[i].1
  {
    if row[0].0 != key {
      assert forall k :: 0 <= k < i - 1 ==> row[1..][k].0 == row[k + 1].0;
      LookupFirstMatch(row[1..], key, i - 1);
    }
  }

  /** What a field becomes in a CSV line: a string in double quotes, null or undefined as
      nothing, anything else as its text. */
  function FieldText(v: JsValue): string
  {
    match v
    case JsString(s) => "\"" + s + "\""
    case JsNullish => ""
    case JsOther(text) => text
  }

  /** A string field is its text between two quotes, with nothing escaped. */
  lemma FieldQuoted(s: string)
    ensures |FieldText(JsString(s))| == |s| + 2
    ensures FieldText(JsString(s))[0] == '"' && FieldText(JsString(s))[|s| + 1] == '"'
    ensures FieldText(JsString(s))[1..|s| + 1] == s
  {
  }

  /** Array.prototype.join. */
  function Join(parts: seq<string>, sep: char): string
  {
    if parts == [] then ""
    else if |parts| == 1 then parts[0]
    else parts[0] + [sep] + Join(parts[1..], sep)
  }

  /** The position of the first sep in s, or |s|. */
  function IndexOf(s: string, sep: char): (i: nat)
    ensures i <= |s|
    ensures forall k :: 0 <= k < i ==> s[k] != sep
    ensures i < |s| ==> s[i] == sep
  {
    if s == [] || s[0] == sep then 0 else 1 + IndexOf(s[1..], sep)
  }

  /** String.prototype.split with a one-character separator: the reader's view of the text. */
  function Split(s: string, sep: char): (parts: seq<string>)
    ensures |parts| >= 1
    decreases |s|
  {
    var i := IndexOf(s, sep);
    if i == |s| then [s] else [s[..i]] + Split(s[i + 1..], sep)
  }

  lemma {:induction false} IndexOfJoined(a: string, sep: char, b: string)
    requires sep !in a
    ensures IndexOf(a + [sep] + b, sep) == |a|
  {
    if a != [] {
      assert (a + [sep] + b)[1..] == a[1..] + [sep] + b;
      IndexOfJoined(a[1..], sep, b);
    }
  }

  lemma {:induction false} IndexOfAbsent(a: string, sep: char)
    requires sep !in a
    ensures IndexOf(a, sep) == |a|
  {
    if a != [] {
      IndexOfAbsent(a[1..], sep);
    }
  }

  /** Splitting a join recovers the parts when no part contains the separator. */
  lemma {:induction false} SplitJoin(parts: seq<string>, sep: char)
    requires |parts| >= 1
    requires forall i :: 0 <= i < |parts| ==> sep !in parts[i]
    ensures Split(Join(parts, sep), sep) == parts
  {
    if |parts| == 1 {
      IndexOfAbsent(parts[0], sep);
    } else {
      var rest := Join(parts[1..], sep);
      var s := parts[0] + [sep] + rest;
      IndexOfJoined(parts[0], sep, rest);
      assert s[..|parts[0]|] == parts[0];
      assert s[|parts[0]| + 1..] == rest;
      SplitJoin(parts[1..], sep);
    }
  }

  /** A character that is in no part and is not the separator is not in the join. */
  lemma {:induction false} JoinAvoids(parts: seq<string>, sep: char, c: char)
    requires c != sep
    requires forall i :: 0 <= i < |parts| ==> c !in parts[i]
    ensures c !in Join(parts, sep)
  {
    if |parts| > 1 {
      JoinAvoids(parts[1..], sep, c);
    }
  }

  /** The fields of one data line: the row's value under each header, formatted. */
  function Fields(headers: seq<string>, row: Row): (fs: seq<string>)
    ensures |fs| == |headers|
    ensures forall i :: 0 <= i < |headers| ==> fs[i] == FieldText(Lookup(row, headers[i]))
  {
    seq(|headers|, i requires 0 <= i < |headers| => FieldText(Lookup(row, headers[i])))
  }

  /** One data line: the row's fields joined by commas. */
  function DataLine(headers: seq<string>, row: Row): string
  {
    Join(Fields(headers, row), ',')
  }

  /** The lines of the export: the first row's keys, then one line per row. */
  function CsvLines(rows: seq<Row>): (lines: seq<string>)
    requires rows != []
    ensures |lines| == |rows| + 1
    ensures lines[0] == Join(Keys(rows[0]), ',')
    ensures forall j :: 0 <= j < |rows| ==> lines[j + 1] == DataLine(Keys(rows[0]), rows[j])
  {
    [Join(Keys(rows[0]), ',')] + seq(|rows|, j requires 0 <= j < |rows| => DataLine(Keys(rows[0]), rows[j]))
  }

  /** convertToCSV: the empty string for anything but a non-empty array, otherwise the
      header line and one line per row, separated by newlines. */
  method ConvertToCsv(data: CsvInput) returns (csv: string)
    ensures data.NotAnArray? || data.rows == [] ==> csv == ""
    ensures data.AnArray? && data.rows != [] ==> csv == Join(CsvLines(data.rows), '\n')
  {
    if data.NotAnArray? || |data.rows| == 0 {
      return "";
    }
    var rows := data.rows;
    var headers := Keys(rows[0]);
    var csvRows := [Join(headers, ',')];
    for j := 0 to |rows|
      invariant |csvRows| == j + 1
      invariant csvRows[0] == Join(headers, ',')
      invariant forall k :: 0 <= k < j ==> csvRows[k + 1] == DataLine(headers, rows[k])
    {
      csvRows := csvRows + [DataLine(headers, rows[j])];
    }
    assert csvRows == CsvLines(rows);
    csv := Join(csvRows, '\n');
  }

  /** No header and no formatted field of the export contains the character c. */
  predicate Avoids(rows: seq<Row>, c: char)
    requires rows != []
  {
    && (forall i :: 0 <= i < |rows[0]| ==> c !in rows[0][i].0)
    && (forall j, i :: 0 <= j < |rows| && 0 <= i < |rows[0]| ==> c !in FieldText(Lookup(rows[j], rows[0][i].0)))
  }

  /** Read back line by line, an export without newlines in its text has exactly one line more
      than there are rows: the headers first, then each row in order. */
  lemma CsvLineStructure(rows: seq<Row>)
    requires rows != [] && Avoids(rows, '\n')
    ensures Split(Join(CsvLines(rows), '\n'), '\n') == CsvLines(rows)
    ensures |Split(Join(CsvLines(rows), '\n'), '\n')| == |rows| + 1
  {
    var lines := CsvLines(rows);
    var headers := Keys(rows[0]);
    JoinAvoids(headers, ',', '\n');
    forall k | 0 <= k < |lines| ensures '\n' !in lines[k] {
      if k > 0 {
        JoinAvoids(Fields(headers, rows[k - 1]), ',', '\n');
      }
    }
    SplitJoin(lines, '\n');
  }

  /** Read back field by field, a data line without commas in its text gives field i as the
      row's value under header i. */
  lemma CsvFieldStructure(rows: seq<Row>, j: int)
    requires rows != [] && Avoids(rows, ',') && 0 <= j < |rows|
    requires |rows[0]| >= 1
    ensures var fields := Split(CsvLines(rows)[j + 1], ',');
      |fields| == |rows[0]| &&
      forall i :: 0 <= i < |rows[0]| ==> fields[i] == FieldText(Lookup(rows[j], rows[0][i].0))
  {
    SplitJoin(Fields(Keys(rows[0]), rows[j]), ',');
  }

  /** A newline inside a string value splits its row: one row, two lines of data. */
  lemma NewlineInValueBreaksRow()
    ensures var rows := [[("note", JsString("a\nb"))]];
      |Split(Join(CsvLines(rows), '\n'), '\n')| == 3
  {
    var rows := [[("note", JsString("a\nb"))]];
    var lines := CsvLines(rows);
    assert Keys(rows[0]) == ["note"];
    assert Lookup(rows[0], "note") == JsString("a\nb");
    assert FieldText(JsString("a\nb")) == "\"a\nb\"";
    assert Fields(["note"], rows[0])[0] == "\"a\nb\"";
    assert Fields(["note"], rows[0]) == ["\"a\nb\""];
    assert lines == ["note", "\"a\nb\""];
    var csv := Join(lines, '\n');
    assert Join(lines[1..], '\n') == "\"a\nb\"";
    assert csv == "note" + "\n" + "\"a\nb\"";
    assert csv == "note\n\"a\nb\"";
    IndexOfJoined("note", '\n', "\"a\nb\"");
    assert csv[5..] == "\"a" + "\n" + "b\"";
    IndexOfJoined("\"a", '\n', "b\"");
    assert csv[5..][3..] == "b\"";
    IndexOfAbsent("b\"", '\n');
  }
}
