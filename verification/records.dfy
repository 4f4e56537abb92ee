/**
 The entities of the meal planner: user profiles, meals, meal plans and the
 three dietary categories a food can fall into. Fields the planner carries
 but never inspects (age, preference, protein, carbs) are kept as plain data.
 */
module Records {

  /** An optional value; `None` marks a field that could not be parsed. */
  datatype Option<+T> = None | Some(value: T)

  /** The categories the keyword classifier assigns to a food. */
  datatype Category = Vegetarian | NonVegetarian | Vegan
  {
    /** The text label stored on a meal and compared against a profile's restrictions. */
    function Label(): string
    {
      match this
      case Vegetarian => "Vegetarian"
      case NonVegetarian => "Non-Vegetarian"
      case Vegan => "Vegan"
    }
  }

  /** A user. `dietaryRestrictions` is an allow-list of category labels. */
  datatype Profile = Profile(
    name: string,
    age: int,
    dietaryPreference: string,
    calorieRequirement: real,
    dietaryRestrictions: seq<string>)

  /** A food record of the meal database. */
  datatype Meal = Meal(
    name: string,
    calories: real,
    protein: real,
    carbs: real,
    category: Category)

  /** A day's plan: each slot is a list, which the allocator fills with at most one meal. */
  datatype MealPlan = MealPlan(breakfast: seq<Meal>, lunch: seq<Meal>, dinner: seq<Meal>)

  /** The key a profile is indexed by. */
  function Key(p: Profile): real
  {
    p.calorieRequirement
  }
}
