# Smart meal planner — Dafny model

This project models the logic core of a small meal planner written in Python. The planner
keeps user profiles in a binary search tree keyed by calorie requirement. It loads a food
database, assigning each food a category by keyword matching on its name. It filters the
database by calorie budget and allowed dietary category. It fills three daily meal slots
from the filtered list.

The model has four modules:

- `Records` (records.dfy) holds the entities. These are `Profile`, `Meal`, `MealPlan` and
  `Category`, plus the string `Label` each category carries.
- `DietaryBST` (dietary_bst.dfy) holds the profile tree. `Tree` is an inductive
  datatype and `Insert` is pure. `InOrder` returns the sequence of profiles the printing
  traversal would visit. `Build` inserts a list of profiles, in order, into an empty
  tree, the way a caller uses `DietaryBST.insert`.
- `Classification` (classification.dfy) holds the keyword classifier. It uses ASCII
  lower-casing, a substring search proved equal to "occurs at some position", and the
  three keyword lists in priority order.
- `MealPlanner` (meal_planner.dfy) holds the loader's row loop, the matcher and the
  allocator. In the row loop, a numeric field that failed to parse is `None`, and such a
  row is skipped. The meal database is an explicit `seq<Meal>` parameter, not a
  class-level cache. `GenerateMealPlan` is the planner's loop, with its early `break`. It
  is proved equal to `Allocate`, a reference definition in which slot k holds the k-th
  match when there is one. All of these are pure, so the same inputs always give the
  same plan. The sample database is the loader's output on five sample rows, so its
  categories are the ones the classifier gives, and the example plans use the demo's
  three profiles.

Calories and calorie requirements are `real`. The source only compares them and never
does arithmetic on them. Dietary restrictions stay a list of strings, because the source
compares the meal's category label against that list by string equality.

Behaviours of the code worth knowing:

- Equal keys are dropped on insert. So the traversal is strictly increasing by calorie
  requirement (`InOrderSorted`), and there is one node per distinct requirement.
- Of several profiles that share a key, the tree keeps the first one inserted
  (`BuildKeepsFirst`).
- Classification matches substrings, not words. So "Eggplant" is classified
  Non-Vegetarian because it contains "egg" (`EggplantExample`).
- A food whose name has no keyword defaults to Vegetarian. "Steak" contains no meat term,
  so it is Vegetarian (`SteakExample`), and a vegetarian profile can be served it
  (`VegetarianPlanExample`).

## Model

| member | source | states |
|---|---|---|
| `DietaryBST.Insert` | main.py:56-63 | The keys after an insert are exactly the old keys plus the new profile's key. A key not already present adds exactly one node. |
| `DietaryBST.InOrder` | main.py:68-72 | The traversal lists every profile stored in the tree exactly as often as it is stored: its multiset is the tree's multiset of profiles, and its length is the node count. |
| `DietaryBST.InOrderKeys` | main.py:68-72 | The keys reported by the traversal are exactly the keys stored in the tree. |
| `DietaryBST.InsertNewKey` | main.py:56-62 | Inserting a profile with a new key adds exactly that profile to the traversal's multiset. Nothing is lost or duplicated. |
| `DietaryBST.InsertPreservesBST` | main.py:56-63 | Insertion keeps the search-tree invariant: left keys are strictly smaller than the node key and right keys strictly larger. |
| `DietaryBST.InsertExistingKey` | main.py:59-63 | In a search tree, inserting a profile whose key is already present returns the tree unchanged. The duplicate is dropped and the original profile stays. |
| `DietaryBST.InOrderSorted` | main.py:65-72 | The traversal of a search tree lists profiles in strictly increasing calorie requirement. |
| `DietaryBST.SizeIsKeyCount` | main.py:56-63 | A search tree has exactly one node per distinct key. |
| `DietaryBST.Build` | main.py:50-54 | Inserting the profiles one after another into an empty tree. It has no contract of its own; `BuildIsBST`, `BuildKeys`, `BuildInOrder` and `BuildKeepsFirst` state what it yields. |
| `DietaryBST.BuildIsBST` | main.py:49-63 | Any sequence of inserts into an empty tree yields a search tree. |
| `DietaryBST.BuildKeys` | main.py:49-63 | The keys of the tree are exactly the keys of the inserted profiles. |
| `DietaryBST.BuildInOrder` | main.py:49-72 | After any sequence of inserts, the traversal is strictly increasing, and its length is the number of distinct keys inserted. |
| `DietaryBST.BuildKeepsFirst` | main.py:56-63 | A profile appears in the traversal if and only if it is the first inserted profile with its key. |
| `DietaryBST.AscendingTraversalExample` | main.py:56-72 | Inserting requirements 1500, 1000 and 1800 puts 1000 left and 1800 right of the root, and traverses as 1000, 1500, 1800. |
| `DietaryBST.DemoInsertionExample` | main.py:146-156 | The demo's inserts of requirements 1000, 1500 and 1800, in that order, build a right-leaning chain, which traverses in insertion order. |
| `DietaryBST.DuplicateDroppedExample` | main.py:59-63 | Two profiles with the same requirement traverse as the first one only. |
| `Classification.Lower` | main.py:90 | Lower-casing keeps the length and maps each character independently. |
| `Classification.LowerIdempotent` | main.py:90-94 | Lower-casing twice equals lower-casing once, and no upper-case ASCII letter remains. |
| `Classification.ContainsIsOccurs` | main.py:90 | The substring search returns true exactly when the term occurs at some position of the name. |
| `Classification.AbsentCharNotContained` | main.py:90 | A term containing a character the name lacks is not a substring of the name. |
| `Classification.ContainsAnyIsMention` | main.py:90-94 | Searching a keyword list returns true exactly when some term of the list occurs in the name. |
| `Classification.Classify` | main.py:90-97 | The category of a food from its lower-cased name. It has no contract of its own; `ClassifyRules` states its rules. |
| `Classification.ClassifyRules` | main.py:90-97 | A name is Non-Vegetarian if and only if it mentions a meat term. It is Vegan if and only if it mentions no meat or dairy/pasta term but does mention a spread term. Otherwise it is Vegetarian. |
| `Classification.ClassifyIgnoresCase` | main.py:90-97 | A name and its lower-cased form get the same category. |
| `Classification.MeatTermWins` | main.py:90-91 | One meat term anywhere in the lower-cased name makes it Non-Vegetarian, whatever else the name mentions. |
| `Classification.NoMeatTerm` | main.py:90 | A lower-cased name without the letters c, b, p, g, and without h or a, mentions no meat term. |
| `Classification.NoDairyTerm` | main.py:92 | A lower-cased name without the letters c, p, r and z mentions no dairy or pasta term. |
| `Classification.NoSpreadTerm` | main.py:94 | A lower-cased name without the letters j, h, p and m mentions no spread term. |
| `Classification.ChickenPastaExample` | main.py:90-93 | "Chicken Pasta" is Non-Vegetarian. The meat list takes precedence over the pasta term. |
| `Classification.EggplantExample` | main.py:90-91 | "Eggplant" is Non-Vegetarian, because matching is by substring. |
| `Classification.SteakExample` | main.py:90-97 | "Steak" mentions no keyword, so it takes the default category, Vegetarian. |
| `Classification.JamExample` | main.py:90-95 | "Jam" mentions no meat or dairy term and is a spread, so it is Vegan. |
| `Classification.HoneyExample` | main.py:90-95 | "Honey" is Vegan. Its letter h does not make it match "ham". |
| `MealPlanner.LoadRows` | main.py:87-108 | Every loaded meal carries the category its name classifies to. Every fully parsed row becomes a meal. No more meals than rows are produced. |
| `MealPlanner.LoadRowsOnlyParsed` | main.py:98-108 | Every loaded meal is the meal of some fully parsed row. A row with a field that is not a number contributes nothing. |
| `MealPlanner.LoadRowsSingle` | main.py:88-108 | One row yields its meal when all three fields parse, and nothing otherwise. |
| `MealPlanner.LoadRowsAppend` | main.py:88-106 | Rows are processed one at a time, in order. Loading distributes over concatenation. |
| `MealPlanner.LoadRowsAllParsed` | main.py:98-106 | When every row parses, no row is skipped. |
| `MealPlanner.SampleMealsClassified` | main.py:88-106 | Each parsed sample row becomes the sample meal of the same name, with the category the keyword lists give it. |
| `MealPlanner.SampleDatabaseLoaded` | main.py:87-109 | Loading the five sample rows skips the one whose calorie value is not a number and keeps the other four in order. |
| `MealPlanner.MatchingMeals` | main.py:120-122 | A meal is in the result if and only if it is in the database, within the calorie budget, and its category label is in the restrictions. The result is no longer than the database. |
| `MealPlanner.MatchingMealsAppend` | main.py:120-122 | Matching distributes over concatenation of databases. It is a stable filter that keeps database order. |
| `MealPlanner.MatchingMealsSingle` | main.py:121-122 | A one-meal database yields that meal exactly when the meal is eligible. |
| `MealPlanner.MatchingMealsKeepsAll` | main.py:120-122 | The result is the whole database if and only if every meal is eligible. |
| `MealPlanner.NothingEligibleNoMatches` | main.py:120-122 | When no meal is eligible the result is empty. |
| `MealPlanner.NoRestrictionsNoMatches` | main.py:120-122 | An empty restriction list gives no matches. |
| `MealPlanner.Slot` | main.py:127-135 | A slot holds at most one meal, and it is non-empty exactly when enough matches exist. |
| `MealPlanner.Allocate` | main.py:126-139 | Each slot holds at most one meal. Lunch is filled only if breakfast is, and dinner only if lunch is. The number of filled slots is min(3, number of matches). Breakfast, lunch and dinner together are the first min(3, n) matches in order. |
| `MealPlanner.AllocateIgnoresLaterMatches` | main.py:129-137 | Once three matches exist, later matches never change the plan. |
| `MealPlanner.GenerateMealPlan` | main.py:125-139 | The greedy first-empty-slot loop with early break equals the reference allocation of the matching meals. Each slot holds at most one meal. |
| `MealPlanner.NoRestrictionsEmptyPlan` | main.py:125-139 | A profile that allows no category gets three empty slots. |
| `MealPlanner.VeganPlanExample` | main.py:142-159 | The demo's 1000-calorie vegan gets Jam and Honey from the sample database, and dinner stays empty. Steak is Vegetarian and Chicken Pasta Non-Vegetarian, so neither matches. |
| `MealPlanner.VegetarianPlanExample` | main.py:143-162 | The demo's 1500-calorie vegetarian gets only Steak, which the keyword lists classify as Vegetarian. |
| `MealPlanner.MixedPlanExample` | main.py:144-165 | The demo's 1800-calorie profile allowing Vegan and Vegetarian gets Jam, Steak and Honey, in database order. |
| `MealPlanner.TightBudgetExample` | main.py:120-139 | A 50-calorie budget below every meal gives an empty plan. |

## Left out

- Reading the CSV file with pandas, the hardcoded file path, the column check and its column-renaming fallback (main.py:76-86). This is file I/O through a library outside the model. The loader's input is a sequence of already-split rows.
- The loader's exception handlers (main.py:110-115). A missing file or any other loading error makes the loader return an empty list. A non-string food name would raise there too. These are I/O and dynamic-typing failures; the model types the food name as a string.
- `float(...)` conversion (main.py:101-103). Each numeric field is an `Option<real>`, where `None` stands for a value whose conversion raised `ValueError`. The row is then skipped, as at main.py:107-108. Floating-point rounding, NaN and infinities are not modelled.
- Classification.Lower: ASCII only. Python's `str.lower` also lower-cases non-ASCII letters, and for a few characters it changes the string's length.
- The class-level `meal_database = load_meal_database()` (main.py:117). This is global state initialised by I/O, so the database is a parameter of `MatchingMeals` and `GenerateMealPlan`.
- All `display_*` methods, and the printing inside the traversal and the loader (main.py:11-12, 22-23, 31-41, 71, 79, 82, 108). These are output only; the traversal returns a sequence instead.
- `main()` (main.py:141-168) as a program. It is glue code. Its three-profile insertion is restated as `DemoInsertionExample`, and its three plans as `VeganPlanExample`, `VegetarianPlanExample` and `MixedPlanExample` over a sample database, since the real database is a file the model does not read.
- Python's recursion limit. `_insert_rec` and `_inorder_rec` (main.py:56-72) recurse once per tree level. `Build`, `Insert` and `InOrder` are total in the model, whereas Python raises `RecursionError` once the tree is about 1000 levels deep.
- Balance. The tree never rebalances, so inserts in ascending order, the order of main.py:151-153, grow a chain as deep as the number of profiles (`DemoInsertionExample`). The model states no depth or running-time bound.
- The `age`, `dietary_preference`, `protein` and `carbs` fields. They are carried but never inspected by the logic.
- Dynamic typing of the restrictions. If a caller passed a string instead of a list, Python's `in` would test for a substring. The model types restrictions as a list of strings, as every caller in the source passes a list.
