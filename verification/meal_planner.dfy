/**
 The meal planner: the database loader's row loop, the meal matcher and the
 allocator. The meal database, a class-level cache in the planner, is an
 explicit parameter of the matcher and the allocator.
 */
module MealPlanner {
  import opened Records
  import opened Classification

  /** One row of the nutrition table; `None` marks a value that is not a number. */
  datatype FoodRow = FoodRow(
    food: string,
    caloricValue: Option<real>,
    protein: Option<real>,
    carbohydrates: Option<real>)

  /** All three numeric fields parsed. */
  predicate Parsed(row: FoodRow)
  {
    row.caloricValue.Some? && row.protein.Some? && row.carbohydrates.Some?
  }

  /** The meal a parsed row becomes, categorised by its name. */
  function ToMeal(row: FoodRow): Meal
    requires Parsed(row)
  {
    Meal(row.food, row.caloricValue.value, row.protein.value, row.carbohydrates.value, Classify(row.food))
  }

  /** The loader's row loop: each parsed row becomes a classified meal, the others are skipped. */
  function LoadRows(rows: seq<FoodRow>): (meals: seq<Meal>)
    ensures |meals| <= |rows|
    ensures forall m :: m in meals ==> m.category == Classify(m.name)
    ensures forall i :: 0 <= i < |rows| && Parsed(rows[i]) ==> ToMeal(rows[i]) in meals
  {
    if |rows| == 0 then []
    else (if Parsed(rows[0]) then [ToMeal(rows[0])] else []) + LoadRows(rows[1..])
  }

  /** Every loaded meal comes from a row that parsed: an unparsed row contributes nothing. */
  lemma {:induction false} LoadRowsOnlyParsed(rows: seq<FoodRow>)
    ensures forall m :: m in LoadRows(rows) ==> exists i :: 0 <= i < |rows| && Parsed(rows[i]) && m == ToMeal(rows[i])
  {
    if |rows| > 0 {
      LoadRowsOnlyParsed(rows[1..]);
      forall m | m in LoadRows(rows)
        ensures exists i :: 0 <= i < |rows| && Parsed(rows[i]) && m == ToMeal(rows[i])
      {
        if m in LoadRows(rows[1..]) {
          var k :| 0 <= k < |rows[1..]| && Parsed(rows[1..][k]) && m == ToMeal(rows[1..][k]);
          assert rows[k + 1] == rows[1..][k];
        } else {
          assert Parsed(rows[0]) && m == ToMeal(rows[0]);
        }
      }
    }
  }

  /** The first row is loaded before the rest. */
  lemma LoadRowsCons(row: FoodRow, rest: seq<FoodRow>)
    ensures LoadRows([row] + rest) == (if Parsed(row) then [ToMeal(row)] else []) + LoadRows(rest)
  {
    assert ([row] + rest)[1..] == rest;
  }

  /** A single row yields its meal when it parses and nothing otherwise. */
  lemma LoadRowsSingle(row: FoodRow)
    ensures LoadRows([row]) == if Parsed(row) then [ToMeal(row)] else []
  {
    assert [row][1..] == [];
  }

  /** Rows are loaded one at a time, in order: loading distributes over concatenation. */
  lemma {:induction false} LoadRowsAppend(a: seq<FoodRow>, b: seq<FoodRow>)
    ensures LoadRows(a + b) == LoadRows(a) + LoadRows(b)
  {
    if |a| == 0 {
      assert a + b == b;
    } else {
      assert (a + b)[0] == a[0];
      assert (a + b)[1..] == a[1..] + b;
      LoadRowsAppend(a[1..], b);
    }
  }

  /** No row is lost when every row parses. */
  lemma {:induction false} LoadRowsAllParsed(rows: seq<FoodRow>)
    requires forall i :: 0 <= i < |rows| ==> Parsed(rows[i])
    ensures |LoadRows(rows)| == |rows|
  {
    if |rows| > 0 {
      LoadRowsAllParsed(rows[1..]);
    }
  }

  /** A meal fits a profile when it is within the calorie budget and its category is allowed. */
  predicate Eligible(m: Meal, profile: Profile)
  {
    m.calories <= profile.calorieRequirement && m.category.Label() in profile.dietaryRestrictions
  }

  /** The eligible meals of the database, in database order. */
  function MatchingMeals(db: seq<Meal>, profile: Profile): (r: seq<Meal>)
    ensures forall m :: m in r <==> m in db && Eligible(m, profile)
    ensures |r| <= |db|
  {
    if |db| == 0 then []
    else (if Eligible(db[0], profile) then [db[0]] else []) + MatchingMeals(db[1..], profile)
  }

  /** Matching distributes over concatenation: the relative order of the database is kept. */
  lemma {:induction false} MatchingMealsAppend(a: seq<Meal>, b: seq<Meal>, profile: Profile)
    ensures MatchingMeals(a + b, profile) == MatchingMeals(a, profile) + MatchingMeals(b, profile)
  {
    if |a| == 0 {
      assert a + b == b;
    } else {
      assert (a + b)[0] == a[0];
      assert (a + b)[1..] == a[1..] + b;
      MatchingMealsAppend(a[1..], b, profile);
    }
  }

  /** A single meal is kept exactly when it is eligible. */
  lemma MatchingMealsSingle(m: Meal, profile: Profile)
    ensures MatchingMeals([m], profile) == (if Eligible(m, profile) then [m] else [])
  {
  }

  /** Every meal is kept exactly when every meal is eligible. */
  lemma {:induction false} MatchingMealsKeepsAll(db: seq<Meal>, profile: Profile)
    ensures MatchingMeals(db, profile) == db <==> forall i :: 0 <= i < |db| ==> Eligible(db[i], profile)
  {
    if |db| > 0 {
      MatchingMealsKeepsAll(db[1..], profile);
      if !Eligible(db[0], profile) {
        assert |MatchingMeals(db, profile)| < |db|;
      } else if MatchingMeals(db, profile) == db {
        assert MatchingMeals(db[1..], profile) == db[1..];
      }
    }
  }

  /** When no meal is eligible the match list is empty. */
  lemma {:induction false} NothingEligibleNoMatches(db: seq<Meal>, profile: Profile)
    requires forall i :: 0 <= i < |db| ==> !Eligible(db[i], profile)
    ensures MatchingMeals(db, profile) == []
  {
    if |db| > 0 {
      NothingEligibleNoMatches(db[1..], profile);
    }
  }

  /** With no allowed category nothing matches. */
  lemma NoRestrictionsNoMatches(db: seq<Meal>, profile: Profile)
    requires profile.dietaryRestrictions == []
    ensures MatchingMeals(db, profile) == []
  {
  }

  function Min(a: int, b: int): int
  {
    if a <= b then a else b
  }

  /** Slot `k` of a plan: the `k`-th match when there is one. */
  function Slot(matches: seq<Meal>, k: nat): (s: seq<Meal>)
    ensures |s| <= 1
    ensures s != [] <==> k < |matches|
  {
    if k < |matches| then [matches[k]] else []
  }

  /** The intended allocation: the first three matches go to breakfast, lunch and dinner. */
  function Allocate(matches: seq<Meal>): (plan: MealPlan)
    ensures |plan.breakfast| <= 1 && |plan.lunch| <= 1 && |plan.dinner| <= 1
    ensures plan.lunch != [] ==> plan.breakfast != []
    ensures plan.dinner != [] ==> plan.lunch != []
    ensures |plan.breakfast| + |plan.lunch| + |plan.dinner| == Min(3, |matches|)
    ensures plan.breakfast + plan.lunch + plan.dinner == matches[..Min(3, |matches|)]
  {
    var plan := MealPlan(Slot(matches, 0), Slot(matches, 1), Slot(matches, 2));
    assert plan.breakfast + plan.lunch + plan.dinner == matches[..Min(3, |matches|)];
    plan
  }

  /** Matches beyond the third never reach the plan. */
  lemma AllocateIgnoresLaterMatches(matches: seq<Meal>, rest: seq<Meal>)
    requires |matches| >= 3
    ensures Allocate(matches + rest) == Allocate(matches)
  {
  }

  /**
   The planner's loop: each match goes to the first empty slot, and the scan
   stops once all three slots hold a meal.
   */
  method GenerateMealPlan(db: seq<Meal>, profile: Profile) returns (plan: MealPlan)
    ensures plan == Allocate(MatchingMeals(db, profile))
    ensures |plan.breakfast| <= 1 && |plan.lunch| <= 1 && |plan.dinner| <= 1
  {
    var matched := MatchingMeals(db, profile);
    var breakfast, lunch, dinner := [], [], [];
    var i := 0;
    while i < |matched|
      invariant 0 <= i <= |matched| && i <= 2
      invariant breakfast == Slot(matched[..i], 0)
      invariant lunch == Slot(matched[..i], 1)
      invariant dinner == Slot(matched[..i], 2)
    {
      var meal := matched[i];
      if breakfast == [] {
        breakfast := [meal];
      } else if lunch == [] {
        lunch := [meal];
      } else if dinner == [] {
        dinner := [meal];
      }
      i := i + 1;
      assert matched[..i][..i - 1] == matched[..i - 1];
      if |breakfast| == 1 && |lunch| == 1 && |dinner| == 1 {
        break;
      }
    }
    assert i == |matched| || i == 3;
    plan := MealPlan(breakfast, lunch, dinner);
  }

  /** A profile that allows no category gets three empty slots. */
  lemma NoRestrictionsEmptyPlan(db: seq<Meal>, profile: Profile)
    requires profile.dietaryRestrictions == []
    ensures Allocate(MatchingMeals(db, profile)) == MealPlan([], [], [])
  {
    NoRestrictionsNoMatches(db, profile);
  }

  /** Sample rows: the third has a calorie value that is not a number. */
  const JamRow := FoodRow("Jam", Some(250.0), Some(0.4), Some(65.0))
  const SteakRow := FoodRow("Steak", Some(600.0), Some(50.0), Some(0.0))
  const ToastRow := FoodRow("Toast", None, Some(9.0), Some(49.0))
  const HoneyRow := FoodRow("Honey", Some(300.0), Some(0.3), Some(82.0))
  const ChickenPastaRow := FoodRow("Chicken Pasta", Some(700.0), Some(40.0), Some(60.0))
  const SampleRows := [JamRow, SteakRow, ToastRow, HoneyRow, ChickenPastaRow]

  const Jam := Meal("Jam", 250.0, 0.4, 65.0, Vegan)
  const Steak := Meal("Steak", 600.0, 50.0, 0.0, Vegetarian)
  const Honey := Meal("Honey", 300.0, 0.3, 82.0, Vegan)
  const ChickenPasta := Meal("Chicken Pasta", 700.0, 40.0, 60.0, NonVegetarian)
  const SampleDatabase := [Jam, Steak, Honey, ChickenPasta]

  /** Each parsed sample row becomes its sample meal; "Steak" mentions no meat term and comes out vegetarian. */
  lemma SampleMealsClassified()
    ensures ToMeal(JamRow) == Jam && ToMeal(SteakRow) == Steak
    ensures ToMeal(HoneyRow) == Honey && ToMeal(ChickenPastaRow) == ChickenPasta
  {
    JamExample(JamRow.food);
    SteakExample(SteakRow.food);
    HoneyExample(HoneyRow.food);
    ChickenPastaExample(ChickenPastaRow.food);
  }

  /** Loading the sample rows skips the unparsed row and keeps the others in order. */
  lemma SampleDatabaseLoaded()
    ensures LoadRows(SampleRows) == SampleDatabase
  {
    SampleMealsClassified();
    LoadSkippingThird(JamRow, SteakRow, ToastRow, HoneyRow, ChickenPastaRow, Jam, Steak, Honey, ChickenPasta);
  }

  /** Five rows whose third fails to parse load as the meals of the other four. */
  lemma LoadSkippingThird(r1: FoodRow, r2: FoodRow, r3: FoodRow, r4: FoodRow, r5: FoodRow, m1: Meal, m2: Meal, m4: Meal, m5: Meal)
    requires Parsed(r1) && ToMeal(r1) == m1 && Parsed(r2) && ToMeal(r2) == m2 && !Parsed(r3)
    requires Parsed(r4) && ToMeal(r4) == m4 && Parsed(r5) && ToMeal(r5) == m5
    ensures LoadRows([r1, r2, r3, r4, r5]) == [m1, m2, m4, m5]
  {
    LoadRowsCons(r5, []);
    LoadRowsCons(r4, [r5]);
    LoadRowsCons(r3, [r4, r5]);
    LoadRowsCons(r2, [r3, r4, r5]);
    LoadRowsCons(r1, [r2, r3, r4, r5]);
  }

  /** The demo's 1000-calorie vegan gets the two spreads; the rest are not vegan. */
  lemma VeganPlanExample(profile: Profile)
    requires profile.calorieRequirement == 1000.0 && profile.dietaryRestrictions == ["Vegan"]
    ensures Allocate(MatchingMeals(SampleDatabase, profile)) == MealPlan([Jam], [Honey], [])
  {
    var db := SampleDatabase;
    assert db[1..] == [Steak, Honey, ChickenPasta];
    assert db[1..][1..] == [Honey, ChickenPasta];
    assert db[1..][1..][1..] == [ChickenPasta];
    assert db[1..][1..][1..][1..] == [];
    assert MatchingMeals([ChickenPasta], profile) == [];
    assert MatchingMeals([Honey, ChickenPasta], profile) == [Honey];
    assert MatchingMeals([Steak, Honey, ChickenPasta], profile) == [Honey];
    assert MatchingMeals(db, profile) == [Jam, Honey];
  }

  /** The demo's 1500-calorie vegetarian is served steak, because "Steak" mentions no meat term. */
  lemma VegetarianPlanExample(profile: Profile)
    requires profile.calorieRequirement == 1500.0 && profile.dietaryRestrictions == ["Vegetarian"]
    ensures Allocate(MatchingMeals(SampleDatabase, profile)) == MealPlan([Steak], [], [])
  {
    var db := SampleDatabase;
    assert db[1..] == [Steak, Honey, ChickenPasta];
    assert db[1..][1..] == [Honey, ChickenPasta];
    assert db[1..][1..][1..] == [ChickenPasta];
    assert db[1..][1..][1..][1..] == [];
    assert MatchingMeals([ChickenPasta], profile) == [];
    assert MatchingMeals([Honey, ChickenPasta], profile) == [];
    assert MatchingMeals([Steak, Honey, ChickenPasta], profile) == [Steak];
    assert MatchingMeals(db, profile) == [Steak];
  }

  /** The demo's 1800-calorie profile allowing both categories fills all three slots in database order. */
  lemma MixedPlanExample(profile: Profile)
    requires profile.calorieRequirement == 1800.0 && profile.dietaryRestrictions == ["Vegan", "Vegetarian"]
    ensures Allocate(MatchingMeals(SampleDatabase, profile)) == MealPlan([Jam], [Steak], [Honey])
  {
    var db := SampleDatabase;
    assert db[1..] == [Steak, Honey, ChickenPasta];
    assert db[1..][1..] == [Honey, ChickenPasta];
    assert db[1..][1..][1..] == [ChickenPasta];
    assert db[1..][1..][1..][1..] == [];
    assert MatchingMeals([ChickenPasta], profile) == [];
    assert MatchingMeals([Honey, ChickenPasta], profile) == [Honey];
    assert MatchingMeals([Steak, Honey, ChickenPasta], profile) == [Steak, Honey];
    assert MatchingMeals(db, profile) == [Jam, Steak, Honey];
  }

  /** A 50-calorie budget is below every meal of the sample database: the plan stays empty. */
  lemma TightBudgetExample(profile: Profile)
    requires profile.calorieRequirement == 50.0
    ensures Allocate(MatchingMeals(SampleDatabase, profile)) == MealPlan([], [], [])
  {
    NothingEligibleNoMatches(SampleDatabase, profile);
  }
}
