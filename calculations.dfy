/** The health-metric formulas and classifiers of the fitness tracker
    (utils/calculations.py). Every value is a real number; each formula's
    exact value and its rounded result are both given, so that properties can
    be stated on either. */
module Calculations {
  import opened Wrappers
  import opened Numerics

  // ---------------------------------------------------------------- BMI

  function HeightInMeters(heightCm: real): real
  {
    heightCm / 100.0
  }

  /** weight / height², height given in centimetres; the value before rounding. */
  function BmiExact(weight: real, heightCm: real): real
    requires heightCm != 0.0
  {
    assert Square(HeightInMeters(heightCm)) > 0.0 by {
      SquarePositive(HeightInMeters(heightCm));
    }
    weight / Square(HeightInMeters(heightCm))
  }

  /** calculate_bmi: 0 for a height that is not positive, otherwise the BMI rounded to 2 decimals. */
  function CalculateBmi(weight: real, heightCm: real): (bmi: real)
    ensures heightCm <= 0.0 ==> bmi == 0.0
    ensures heightCm > 0.0 ==> Abs(bmi - BmiExact(weight, heightCm)) <= 0.005
  {
    if heightCm > 0.0 then
      Round2Error(BmiExact(weight, heightCm));
      Round(BmiExact(weight, heightCm), 2)
    else
      RoundZero(2);
      Round(0.0, 2)
  }

  /** A heavier person of the same height never gets a smaller BMI. */
  lemma BmiMonotoneInWeight(w1: real, w2: real, heightCm: real)
    requires heightCm > 0.0 && w1 <= w2
    ensures CalculateBmi(w1, heightCm) <= CalculateBmi(w2, heightCm)
  {
    SquarePositive(HeightInMeters(heightCm));
    DivMonotone(w1, w2, Square(HeightInMeters(heightCm)));
    RoundMonotone(BmiExact(w1, heightCm), BmiExact(w2, heightCm), 2);
  }

  /** A non-negative weight never gives a negative BMI. */
  lemma BmiNonNegative(weight: real, heightCm: real)
    requires weight >= 0.0
    ensures CalculateBmi(weight, heightCm) >= 0.0
  {
    if heightCm > 0.0 {
      BmiMonotoneInWeight(0.0, weight, heightCm);
      RoundZero(2);
      SquarePositive(HeightInMeters(heightCm));
      var s := Square(HeightInMeters(heightCm));
      assert BmiExact(0.0, heightCm) == 0.0 / s;
    }
  }

  // ------------------------------------------------------- BMI category

  /** The four BMI bands, in increasing order. */
  datatype BmiCategory = Underweight | Normal | Overweight | Obese
  {
    function Rank(): nat
    {
      match this
      case Underweight => 0
      case Normal => 1
      case Overweight => 2
      case Obese => 3
    }

    /** The label the application shows and uses as a lookup key. */
    function Label(): string
    {
      match this
      case Underweight => "น้ำหนักน้อย"
      case Normal => "น้ำหนักปกติ"
      case Overweight => "น้ำหนักเกิน"
      case Obese => "อ้วน"
    }
  }

  /** The band of a BMI value: cut-points 18.5, 25 and 30, each the lowest value of its band. */
  function BmiBand(bmi: real): (c: BmiCategory)
    ensures c == Underweight <==> bmi < 18.5
    ensures c == Normal <==> 18.5 <= bmi < 25.0
    ensures c == Overweight <==> 25.0 <= bmi < 30.0
    ensures c == Obese <==> 30.0 <= bmi
  {
    if bmi < 18.5 then Underweight
    else if bmi < 25.0 then Normal
    else if bmi < 30.0 then Overweight
    else Obese
  }

  /** get_bmi_category: the label of the band the BMI falls into. */
  function GetBmiCategory(bmi: real): (category: string)
    ensures category in {Underweight.Label(), Normal.Label(), Overweight.Label(), Obese.Label()}
    ensures category == BmiBand(bmi).Label()
  {
    BmiBand(bmi).Label()
  }

  /** The four labels are distinct, so a label names exactly one band. */
  lemma LabelInjective(c: BmiCategory, d: BmiCategory)
    ensures c.Label() == d.Label() <==> c == d
  {
    if c != d {
      assert c.Label()[0] != d.Label()[0] || c.Label()[|c.Label()| - 1] != d.Label()[|d.Label()| - 1]
          || |c.Label()| != |d.Label()|;
    }
  }

  /** A larger BMI never falls into a lower band. */
  lemma BmiBandMonotone(x: real, y: real)
    requires x <= y
    ensures BmiBand(x).Rank() <= BmiBand(y).Rank()
  {
  }

  /** The cut-points are crisp. */
  lemma BmiBandBoundaries()
    ensures BmiBand(18.49) == Underweight && BmiBand(18.5) == Normal
    ensures BmiBand(24.99) == Normal && BmiBand(25.0) == Overweight
    ensures BmiBand(29.99) == Overweight && BmiBand(30.0) == Obese
  {
  }

  // ---------------------------------------------------------------- BMR

  /** The revised Harris–Benedict equation; any gender other than "male" takes the female coefficients. */
  function BmrExact(weight: real, heightCm: real, age: int, gender: string): real
  {
    if gender == "male" then 88.362 + 13.397 * weight + 4.799 * heightCm - 5.677 * age as real
    else 447.593 + 9.247 * weight + 3.098 * heightCm - 4.330 * age as real
  }

  /** calculate_bmr: the Harris–Benedict value rounded to 2 decimals. */
  function CalculateBmr(weight: real, heightCm: real, age: int, gender: string): (bmr: real)
    ensures Abs(bmr - BmrExact(weight, heightCm, age, gender)) <= 0.005
  {
    Round2Error(BmrExact(weight, heightCm, age, gender));
    Round(BmrExact(weight, heightCm, age, gender), 2)
  }

  /** More weight or height, or fewer years, never lowers the BMR. */
  lemma BmrMonotone(w1: real, w2: real, h1: real, h2: real, a1: int, a2: int, gender: string)
    requires w1 <= w2 && h1 <= h2 && a1 >= a2
    ensures CalculateBmr(w1, h1, a1, gender) <= CalculateBmr(w2, h2, a2, gender)
  {
    RoundMonotone(BmrExact(w1, h1, a1, gender), BmrExact(w2, h2, a2, gender), 2);
  }

  /** Every gender string other than "male" is treated as female. */
  lemma BmrNonMaleIsFemale(weight: real, heightCm: real, age: int, gender: string)
    requires gender != "male"
    ensures CalculateBmr(weight, heightCm, age, gender) == CalculateBmr(weight, heightCm, age, "female")
  {
  }

  // --------------------------------------------------------------- TDEE

  const ActivityMultipliers: map<string, real> := map[
    "sedentary" := 1.2,
    "lightly_active" := 1.375,
    "moderately_active" := 1.55,
    "very_active" := 1.725,
    "extremely_active" := 1.9
  ]

  /** calculate_tdee: BMR times the multiplier of the activity level, rounded to 2 decimals;
      an unknown level is a KeyError. */
  function CalculateTdee(bmr: real, activityLevel: string): (r: Result<real>)
    ensures r.Err? <==> activityLevel !in ActivityMultipliers
    ensures r.Err? ==> r.error == KeyError(activityLevel)
    ensures r.Ok? ==> Abs(r.value - bmr * ActivityMultipliers[activityLevel]) <= 0.005
  {
    if activityLevel in ActivityMultipliers then
      Round2Error(bmr * ActivityMultipliers[activityLevel]);
      Ok(Round(bmr * ActivityMultipliers[activityLevel], 2))
    else
      Err(KeyError(activityLevel))
  }

  /** Exactly five activity levels are known. */
  lemma ActivityLevelsKnown(level: string)
    ensures CalculateTdee(0.0, level).Ok? <==>
      level in {"sedentary", "lightly_active", "moderately_active", "very_active", "extremely_active"}
  {
  }

  /** A more active level never gives a lower TDEE for a non-negative BMR. */
  lemma TdeeOrderedByActivity(bmr: real)
    requires bmr >= 0.0
    ensures CalculateTdee(bmr, "sedentary").value <= CalculateTdee(bmr, "lightly_active").value
    ensures CalculateTdee(bmr, "lightly_active").value <= CalculateTdee(bmr, "moderately_active").value
    ensures CalculateTdee(bmr, "moderately_active").value <= CalculateTdee(bmr, "very_active").value
    ensures CalculateTdee(bmr, "very_active").value <= CalculateTdee(bmr, "extremely_active").value
  {
    MulMonotone(1.2, 1.375, bmr);
    MulMonotone(1.375, 1.55, bmr);
    MulMonotone(1.55, 1.725, bmr);
    MulMonotone(1.725, 1.9, bmr);
    RoundMonotone(bmr * 1.2, bmr * 1.375, 2);
    RoundMonotone(bmr * 1.375, bmr * 1.55, 2);
    RoundMonotone(bmr * 1.55, bmr * 1.725, 2);
    RoundMonotone(bmr * 1.725, bmr * 1.9, 2);
  }

  // ------------------------------------------------------ goal calories

  const CaloriesPerKg: real := 7700.0

  /** The daily deficit or surplus for a weekly rate in kg: rate · 7700 / 7. */
  function DailyEnergyDelta(rate: real): real
  {
    rate * CaloriesPerKg / 7.0
  }

  /** The unrounded goal-adjusted intake. */
  function GoalCaloriesExact(tdee: real, goal: string, rate: real): real
  {
    if goal == "lose" then tdee - DailyEnergyDelta(rate)
    else if goal == "gain" then tdee + DailyEnergyDelta(rate)
    else tdee
  }

  /** calculate_daily_calories_for_goal: 'lose' and 'gain' are rounded to 2 decimals;
      every other goal returns tdee as it came in. */
  function CalculateDailyCaloriesForGoal(tdee: real, goal: string, rate: real): (r: real)
    ensures goal == "lose" ==> Abs(r - (tdee - DailyEnergyDelta(rate))) <= 0.005
    ensures goal == "gain" ==> Abs(r - (tdee + DailyEnergyDelta(rate))) <= 0.005
    ensures goal != "lose" && goal != "gain" ==> r == tdee
  {
    if goal == "lose" || goal == "gain" then
      Round2Error(GoalCaloriesExact(tdee, goal, rate));
      Round(GoalCaloriesExact(tdee, goal, rate), 2)
    else
      tdee
  }

  /** Before rounding, losing and gaining at the same rate are symmetric about tdee,
      at 1100 kcal a day per kg a week. */
  lemma GoalSymmetric(tdee: real, rate: real)
    ensures GoalCaloriesExact(tdee, "lose", rate) + GoalCaloriesExact(tdee, "gain", rate) == 2.0 * tdee
    ensures DailyEnergyDelta(rate) == 1100.0 * rate
  {
  }

  /** For a non-negative rate and a tdee already at 2 decimals (as calculate_tdee gives it),
      'lose' ≤ 'maintain' ≤ 'gain' after rounding too. */
  lemma GoalOrdered(tdeeHundredths: int, rate: real)
    requires rate >= 0.0
    ensures var tdee := tdeeHundredths as real / Pow10(2);
      CalculateDailyCaloriesForGoal(tdee, "lose", rate) <= CalculateDailyCaloriesForGoal(tdee, "maintain", rate)
      <= CalculateDailyCaloriesForGoal(tdee, "gain", rate)
  {
    var tdee := tdeeHundredths as real / Pow10(2);
    RoundExact(tdeeHundredths, 2);
    RoundMonotone(tdee - DailyEnergyDelta(rate), tdee, 2);
    RoundMonotone(tdee, tdee + DailyEnergyDelta(rate), 2);
  }

  // ---------------------------------------------------- calories burned

  /** MET values by activity key, as the server spells them ("bassketball" included). */
  const MetValues: map<string, real> := map[
    "walking_slow" := 2.0,
    "walking_moderate" := 5.0,
    "walking_fast" := 6.5,
    "jogging" := 8.0,
    "running" := 10.0,
    "cycling_leisure" := 3.5,
    "cycling_moderate" := 5.5,
    "cycling_fast" := 8.0,
    "swimming" := 7.0,
    "weight_training" := 6.0,
    "yoga" := 2.5,
    "aerobics" := 6.5,
    "bassketball" := 8.0,
    "soccer" := 8.0,
    "tennis" := 4.0,
    "badminton" := 4.5,
    "dancing" := 6.0
  ]

  /** MET · 3.5 · weight · duration / 200, before rounding. */
  function CaloriesBurnedExact(met: real, durationMinutes: int, weight: real): real
  {
    met * 3.5 * weight * durationMinutes as real / 200.0
  }

  /** The estimate against a given MET table: KeyError for a missing key,
      otherwise the exact value rounded to 2 decimals. */
  function EstimateWith(table: map<string, real>, activityType: string, durationMinutes: int, weight: real)
    : (r: Result<real>)
    ensures r.Err? <==> activityType !in table
    ensures r.Err? ==> r.error == KeyError(activityType)
    ensures r.Ok? ==> Abs(r.value - CaloriesBurnedExact(table[activityType], durationMinutes, weight)) <= 0.005
    ensures r.Ok? && durationMinutes == 0 ==> r.value == 0.0
  {
    if activityType in table then
      var exact := CaloriesBurnedExact(table[activityType], durationMinutes, weight);
      Round2Error(exact);
      RoundZero(2);
      assert durationMinutes == 0 ==> exact == 0.0;
      Ok(Round(exact, 2))
    else
      Err(KeyError(activityType))
  }

  /** estimate_calories_burned, with the server's MET table. */
  function EstimateCaloriesBurned(activityType: string, durationMinutes: int, weight: real): (r: Result<real>)
    ensures r.Err? <==> activityType !in MetValues
    ensures r.Err? ==> r.error == KeyError(activityType)
    ensures r.Ok? ==> Abs(r.value - CaloriesBurnedExact(MetValues[activityType], durationMinutes, weight)) <= 0.005
    ensures r.Ok? && durationMinutes == 0 ==> r.value == 0.0
  {
    EstimateWith(MetValues, activityType, durationMinutes, weight)
  }

  lemma MetValuesPositive()
    ensures forall k :: k in MetValues ==> MetValues[k] > 0.0
  {
  }

  /** For a known activity and a non-negative weight, a longer session never burns less. */
  lemma CaloriesNonDecreasingInDuration(activityType: string, d1: int, d2: int, weight: real)
    requires activityType in MetValues && weight >= 0.0 && d1 <= d2
    ensures EstimateCaloriesBurned(activityType, d1, weight).value
         <= EstimateCaloriesBurned(activityType, d2, weight).value
  {
    var met := MetValues[activityType];
    MetValuesPositive();
    MulMonotone(0.0, met * 3.5, weight);
    MulMonotone(d1 as real, d2 as real, met * 3.5 * weight);
    assert CaloriesBurnedExact(met, d1, weight) <= CaloriesBurnedExact(met, d2, weight);
    RoundMonotone(CaloriesBurnedExact(met, d1, weight), CaloriesBurnedExact(met, d2, weight), 2);
  }

  /** 30 minutes of jogging at 70 kg: 8.0 · 3.5 · 70 · 30 / 200 = 294. */
  lemma JoggingExample()
    ensures EstimateCaloriesBurned("jogging", 30, 70.0) == Ok(294.0)
  {
    assert CaloriesBurnedExact(8.0, 30, 70.0) == 294.0;
    RoundExact(29400, 2);
    assert 29400 as real / Pow10(2) == 294.0;
  }

  /** As written, the key "basketball" is missing: only the misspelt "bassketball" is in the table. */
  lemma BasketballIsMissing(durationMinutes: int, weight: real)
    ensures "bassketball" in MetValues
    ensures EstimateCaloriesBurned("basketball", durationMinutes, weight) == Err(KeyError("basketball"))
  {
  }

  /** The MET table with the key spelt "basketball". */
  const IntendedMetValues: map<string, real> := (MetValues - {"bassketball"})["basketball" := 8.0]

  /** estimate_calories_burned with the key spelt "basketball". */
  function EstimateCaloriesBurnedIntended(activityType: string, durationMinutes: int, weight: real)
    : (r: Result<real>)
    ensures r.Err? <==> activityType !in IntendedMetValues
    ensures r.Ok? ==> Abs(r.value - CaloriesBurnedExact(IntendedMetValues[activityType], durationMinutes, weight)) <= 0.005
  {
    EstimateWith(IntendedMetValues, activityType, durationMinutes, weight)
  }

  /** With the corrected key, "basketball" gets MET 8.0, and every other key behaves as before. */
  lemma IntendedBasketball(activityType: string, durationMinutes: int, weight: real)
    ensures EstimateCaloriesBurnedIntended("basketball", durationMinutes, weight)
         == EstimateCaloriesBurned("bassketball", durationMinutes, weight)
    ensures EstimateCaloriesBurnedIntended("basketball", durationMinutes, weight).Ok?
    ensures activityType != "basketball" && activityType != "bassketball" ==>
      EstimateCaloriesBurnedIntended(activityType, durationMinutes, weight)
      == EstimateCaloriesBurned(activityType, durationMinutes, weight)
  {
    if activityType != "basketball" && activityType != "bassketball" {
      assert (activityType in IntendedMetValues) == (activityType in MetValues);
      if activityType in MetValues {
        assert IntendedMetValues[activityType] == MetValues[activityType];
      }
    }
  }

  // --------------------------------------------------------- ideal weight

  datatype WeightRange = WeightRange(min: real, max: real)

  const IdealBmiLow: real := 18.5
  const IdealBmiHigh: real := 24.9

  /** calculate_ideal_weight_range: the weights whose BMI is 18.5 and 24.9, rounded to 1 decimal. */
  function CalculateIdealWeightRange(heightCm: real): (r: WeightRange)
    ensures r.min <= r.max
    ensures Abs(r.min - IdealBmiLow * Square(HeightInMeters(heightCm))) <= 0.05
    ensures Abs(r.max - IdealBmiHigh * Square(HeightInMeters(heightCm))) <= 0.05
  {
    var s := Square(HeightInMeters(heightCm));
    MulMonotone(IdealBmiLow, IdealBmiHigh, s);
    RoundMonotone(IdealBmiLow * s, IdealBmiHigh * s, 1);
    Round1Error(IdealBmiLow * s);
    Round1Error(IdealBmiHigh * s);
    WeightRange(Round(IdealBmiLow * s, 1), Round(IdealBmiHigh * s, 1))
  }

  /** 170 cm: 18.5 · 1.7² = 53.465 and 24.9 · 1.7² = 71.961, so the range is 53.5 to 72.0. */
  lemma IdealWeight170()
    ensures CalculateIdealWeightRange(170.0) == WeightRange(53.5, 72.0)
  {
    assert Square(HeightInMeters(170.0)) == 2.89;
    assert Pow10(1) == 10.0;
    StepUnfold(53.465, 10.0);
    StepUnfold(71.961, 10.0);
    assert HalfEven(534.65) == 535;
    assert HalfEven(719.61) == 720;
  }

  /** Every weight between the unrounded ends of the range has a normal BMI. */
  lemma IdealRangeIsNormalBmi(heightCm: real, weight: real)
    requires heightCm > 0.0
    requires IdealBmiLow * Square(HeightInMeters(heightCm)) <= weight <= IdealBmiHigh * Square(HeightInMeters(heightCm))
    ensures BmiBand(BmiExact(weight, heightCm)) == Normal
  {
    var s := Square(HeightInMeters(heightCm));
    SquarePositive(HeightInMeters(heightCm));
    DivLowerBound(weight, IdealBmiLow, s);
    DivUpperBound(weight, IdealBmiHigh, s);
  }

  // ----------------------------------------------------------- body fat

  /** 1.2 · BMI + 0.23 · age − 16.2 for "male", − 5.4 otherwise; before rounding. */
  function BodyFatExact(bmi: real, age: int, gender: string): real
  {
    if gender == "male" then 1.2 * bmi + 0.23 * age as real - 16.2
    else 1.2 * bmi + 0.23 * age as real - 5.4
  }

  /** calculate_body_fat_percentage: the estimate rounded to 1 decimal, floored at 0. */
  function CalculateBodyFatPercentage(bmi: real, age: int, gender: string): (r: real)
    ensures r >= 0.0
    ensures BodyFatExact(bmi, age, gender) <= 0.0 ==> r == 0.0
    ensures BodyFatExact(bmi, age, gender) >= 0.0 ==> Abs(r - BodyFatExact(bmi, age, gender)) <= 0.05
  {
    var exact := BodyFatExact(bmi, age, gender);
    var rounded := Round(exact, 1);
    Round1Error(exact);
    RoundZero(1);
    if exact <= 0.0 then RoundMonotone(exact, 0.0, 1); if 0.0 >= rounded then 0.0 else rounded
    else RoundMonotone(0.0, exact, 1); if 0.0 >= rounded then 0.0 else rounded
  }

  /** Before flooring, the estimate for any gender other than "male" is the male one plus 10.8. */
  lemma BodyFatGenderGap(bmi: real, age: int, gender: string)
    requires gender != "male"
    ensures BodyFatExact(bmi, age, gender) - BodyFatExact(bmi, age, "male") == 10.8
  {
  }

  // ------------------------------------------------------ weight status

  datatype Direction = Losing | Gaining

  /** The outcomes of get_weight_status; InProgress carries the kilograms achieved and the total goal. */
  datatype WeightStatus =
    | ConstantGoal
    | Achieved
    | InProgress(direction: Direction, progress: real, totalGoal: real)
    | NotStarted(direction: Direction)

  /** Whether current has reached target, going from initial towards target. */
  predicate GoalReached(current: real, target: real, initial: real)
  {
    if target < initial then current <= target else current >= target
  }

  /** get_weight_status. */
  function GetWeightStatus(current: real, target: real, initial: real): (s: WeightStatus)
    ensures s == ConstantGoal <==> initial == target
    ensures s == Achieved <==> initial != target && GoalReached(current, target, initial)
    ensures s.NotStarted? <==> initial != target && current == initial
    ensures s.InProgress? <==> initial != target && current != initial && !GoalReached(current, target, initial)
    ensures s.InProgress? ==> s.progress == Abs(initial - current) > 0.0 && s.totalGoal == Abs(initial - target) > 0.0
    ensures s.InProgress? || s.NotStarted? ==> s.direction == if target < initial then Losing else Gaining
  {
    if initial == target then ConstantGoal
    else
      var totalGoal := Abs(initial - target);
      var currentProgress := Abs(initial - current);
      var direction := if target < initial then Losing else Gaining;
      if GoalReached(current, target, initial) then Achieved
      else if currentProgress > 0.0 then InProgress(direction, currentProgress, totalGoal)
      else NotStarted(direction)
  }

  /** Progress is measured as distance from the initial weight in either direction:
      gaining 10 kg while aiming to lose 10 kg reads as in progress, 10 of 10 kg. */
  lemma WrongDirectionCountsAsProgress()
    ensures GetWeightStatus(90.0, 70.0, 80.0) == InProgress(Losing, 10.0, 10.0)
  {
  }

  // ---------------------------------------------- activity recommendations

  const Recommendations: map<string, map<string, seq<string>>> := map[
    "น้ำหนักน้อย" := map[
      "gain" := ["ยกน้ำหนัก", "กิจกรรมเพิ่มกล้ามเนื้อ", "เดินเร็ว"],
      "maintain" := ["โยคะ", "เดินเบาๆ", "แอโรบิคเบาๆ"]
    ],
    "น้ำหนักปกติ" := map[
      "maintain" := ["เดิน", "ปั่นจักรยาน", "ว่ายน้ำ", "เต้นรำ"],
      "lose" := ["วิ่งจ๊อกกิ้ง", "แอโรบิค", "ฟุตบอล"],
      "gain" := ["ยกน้ำหนัก", "กิจกรรมเพิ่มกล้ามเนื้อ"]
    ],
    "น้ำหนักเกิน" := map[
      "lose" := ["เดินเร็ว", "ว่ายน้ำ", "ปั่นจักรยาน", "แอโรบิค"],
      "maintain" := ["เดิน", "โยคะ", "เต้นรำ"]
    ],
    "อ้วน" := map[
      "lose" := ["เดิน", "ว่ายน้ำ", "ปั่นจักรยานเบาๆ", "แอโรบิคน้ำ"],
      "maintain" := ["เดินเบาๆ", "โยคะ", "กิจกรรมในน้ำ"]
    ]
  ]

  /** The goals each band has recommendations for. */
  function DefinedGoals(c: BmiCategory): set<string>
  {
    match c
    case Underweight => {"gain", "maintain"}
    case Normal => {"maintain", "lose", "gain"}
    case Overweight => {"lose", "maintain"}
    case Obese => {"lose", "maintain"}
  }

  /** The (category label, goal) pairs that have an entry: nine in all. */
  predicate HasRecommendation(category: string, goal: string)
  {
    || (category == Underweight.Label() && goal in DefinedGoals(Underweight))
    || (category == Normal.Label() && goal in DefinedGoals(Normal))
    || (category == Overweight.Label() && goal in DefinedGoals(Overweight))
    || (category == Obese.Label() && goal in DefinedGoals(Obese))
  }

  /** get_activity_recommendations: the list for the pair, or a KeyError naming the
      first key that is missing (the category, then the goal). */
  function GetActivityRecommendations(bmiCategory: string, goal: string): (r: Result<seq<string>>)
    ensures r.Ok? <==> HasRecommendation(bmiCategory, goal)
    ensures r.Err? ==> r.error == KeyError(if bmiCategory in Recommendations then goal else bmiCategory)
    ensures r.Ok? ==> |r.value| >= 2
  {
    if bmiCategory !in Recommendations then Err(KeyError(bmiCategory))
    else if goal !in Recommendations[bmiCategory] then Err(KeyError(goal))
    else Ok(Recommendations[bmiCategory][goal])
  }

  /** Underweight has nothing for 'lose'; overweight and obese have nothing for 'gain';
      every band has something for 'maintain'. */
  lemma RecommendationGaps(c: BmiCategory)
    ensures GetActivityRecommendations(Underweight.Label(), "lose").Err?
    ensures GetActivityRecommendations(Overweight.Label(), "gain").Err?
    ensures GetActivityRecommendations(Obese.Label(), "gain").Err?
    ensures GetActivityRecommendations(c.Label(), "maintain").Ok?
  {
  }

  /** The class labels get_bmi_category returns are exactly the keys of the table. */
  lemma RecommendationKeysAreCategories(bmi: real)
    ensures GetBmiCategory(bmi) in Recommendations
    ensures forall key :: key in Recommendations ==>
      key in {Underweight.Label(), Normal.Label(), Overweight.Label(), Obese.Label()}
  {
  }
}
