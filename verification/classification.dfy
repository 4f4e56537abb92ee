/**
 The keyword classifier that assigns each food of the database a category.
 Meat terms take precedence over dairy terms, which take precedence over
 spread terms; a name mentioning none of them is vegetarian.
 */
module Classification {
  import opened Records

  const MeatTerms: seq<string> := ["chicken", "beef", "pork", "ham", "egg"]
  const DairyTerms: seq<string> := ["cheese", "pasta", "ricotta", "mozzarella", "cheddar"]
  const SpreadTerms: seq<string> := ["jam", "honey", "peanut butter", "apple butter", "marmalade", "tahini"]

  /** ASCII lower-casing of one character. */
  function LowerChar(c: char): char
  {
    if 'A' <= c <= 'Z' then (c as int + 32) as char else c
  }

  /** ASCII lower-casing of a string, character by character. */
  function Lower(s: string): (r: string)
    ensures |r| == |s|
    ensures forall i :: 0 <= i < |s| ==> r[i] == LowerChar(s[i])
  {
    if |s| == 0 then "" else [LowerChar(s[0])] + Lower(s[1..])
  }

  /** Lower-casing is idempotent and leaves no upper-case ASCII letter behind. */
  lemma LowerIdempotent(s: string)
    ensures Lower(Lower(s)) == Lower(s)
    ensures forall i :: 0 <= i < |s| ==> !('A' <= Lower(s)[i] <= 'Z')
  {
  }

  /** `t` occurs in `s` starting at position `i`. */
  ghost predicate OccursAt(t: string, s: string, i: int)
  {
    0 <= i && i + |t| <= |s| && s[i..i + |t|] == t
  }

  /** `t` is a substring of `s`. */
  ghost predicate Occurs(t: string, s: string)
  {
    exists i :: 0 <= i <= |s| && OccursAt(t, s, i)
  }

  /** Substring search: compares `t` with every suffix of `s` in turn. */
  function Contains(s: string, t: string): bool
    decreases |s|
  {
    if |t| > |s| then false
    else if s[..|t|] == t then true
    else Contains(s[1..], t)
  }

  /** The search agrees with the definition of a substring. */
  lemma {:induction false} ContainsIsOccurs(s: string, t: string)
    ensures Contains(s, t) <==> Occurs(t, s)
    decreases |s|
  {
    if |t| > |s| {
    } else if s[..|t|] == t {
      assert OccursAt(t, s, 0);
    } else {
      ContainsIsOccurs(s[1..], t);
      forall i | 1 <= i <= |s|
        ensures OccursAt(t, s, i) <==> OccursAt(t, s[1..], i - 1)
      {
        if i + |t| <= |s| {
          SliceOfTail(s, i - 1, |t|);
        }
      }
      if Occurs(t, s) {
        var i :| 0 <= i <= |s| && OccursAt(t, s, i);
        assert OccursAt(t, s[1..], i - 1);
      }
      if Occurs(t, s[1..]) {
        var i :| 0 <= i <= |s[1..]| && OccursAt(t, s[1..], i);
        assert OccursAt(t, s, i + 1);
      }
    }
  }

  /** Slicing the tail of `s` is slicing `s` one position further on. */
  lemma SliceOfTail(s: string, i: nat, n: nat)
    requires i + n < |s|
    ensures s[1..][i..i + n] == s[i + 1..i + 1 + n]
  {
  }

  /** Whether any of the terms is a substring of `s`. */
  function ContainsAny(s: string, terms: seq<string>): bool
  {
    |terms| > 0 && (Contains(s, terms[0]) || ContainsAny(s, terms[1..]))
  }

  /** The name, lower-cased, mentions one of the terms. */
  ghost predicate Mentions(name: string, terms: seq<string>)
  {
    exists j :: 0 <= j < |terms| && Occurs(terms[j], Lower(name))
  }

  /** Searching a list of terms finds one exactly when some term of the list occurs. */
  lemma {:induction false} ContainsAnyIsMention(s: string, terms: seq<string>)
    ensures ContainsAny(s, terms) <==> exists j :: 0 <= j < |terms| && Occurs(terms[j], s)
  {
    if |terms| > 0 {
      ContainsIsOccurs(s, terms[0]);
      ContainsAnyIsMention(s, terms[1..]);
      if exists j :: 0 <= j < |terms| && Occurs(terms[j], s) {
        var j :| 0 <= j < |terms| && Occurs(terms[j], s);
        if j > 0 {
          assert terms[1..][j - 1] == terms[j];
        }
      }
      if exists j :: 0 <= j < |terms[1..]| && Occurs(terms[1..][j], s) {
        var j :| 0 <= j < |terms[1..]| && Occurs(terms[1..][j], s);
        assert terms[j + 1] == terms[1..][j];
      }
    }
  }

  /** The category of a food, decided from its name alone. */
  function Classify(name: string): Category
  {
    var lower := Lower(name);
    if ContainsAny(lower, MeatTerms) then NonVegetarian
    else if ContainsAny(lower, DairyTerms) then Vegetarian
    else if ContainsAny(lower, SpreadTerms) then Vegan
    else Vegetarian
  }

  /** The four classification rules, stated over substring occurrence. */
  lemma ClassifyRules(name: string)
    ensures Classify(name) == NonVegetarian <==> Mentions(name, MeatTerms)
    ensures Classify(name) == Vegan <==>
      !Mentions(name, MeatTerms) && !Mentions(name, DairyTerms) && Mentions(name, SpreadTerms)
    ensures Classify(name) == Vegetarian <==>
      !Mentions(name, MeatTerms) && (Mentions(name, DairyTerms) || !Mentions(name, SpreadTerms))
  {
    var lower := Lower(name);
    ContainsAnyIsMention(lower, MeatTerms);
    ContainsAnyIsMention(lower, DairyTerms);
    ContainsAnyIsMention(lower, SpreadTerms);
  }

  /** Case does not matter: a name and its lower-cased form get the same category. */
  lemma ClassifyIgnoresCase(name: string)
    ensures Classify(Lower(name)) == Classify(name)
  {
    LowerIdempotent(name);
  }

  /** One meat term anywhere in the lower-cased name is enough, whatever else it mentions. */
  lemma MeatTermWins(name: string, j: int, i: int)
    requires 0 <= j < |MeatTerms| && OccursAt(MeatTerms[j], Lower(name), i)
    ensures Classify(name) == NonVegetarian
  {
    ClassifyRules(name);
  }

  /** A meat term wins over every other list. */
  lemma ChickenPastaExample(name: string)
    requires name == "Chicken Pasta"
    ensures Classify(name) == NonVegetarian
  {
    var lower := Lower(name);
    assert lower[..7] == "chicken" by {
      assert forall i :: 0 <= i < 7 ==> lower[i] == LowerChar(name[i]);
    }
    MeatTermWins(name, 0, 0);
  }

  /** Matching is on substrings, not words: "egg" inside "eggplant" makes it non-vegetarian. */
  lemma EggplantExample(name: string)
    requires name == "Eggplant"
    ensures Classify(name) == NonVegetarian
  {
    var lower := Lower(name);
    assert lower[..3] == "egg" by {
      assert forall i :: 0 <= i < 3 ==> lower[i] == LowerChar(name[i]);
    }
    MeatTermWins(name, 4, 0);
  }

  /** A term holding a character that `s` lacks is not a substring of `s`. */
  lemma {:induction false} AbsentCharNotContained(s: string, t: string, c: char)
    requires c in t && c !in s
    ensures !Contains(s, t)
    decreases |s|
  {
    if |t| <= |s| {
      assert c !in s[..|t|];
      assert c !in s[1..];
      AbsentCharNotContained(s[1..], t, c);
    }
  }

  /** A list none of whose terms is found is not matched. */
  lemma {:induction false} NoTermContained(s: string, terms: seq<string>)
    requires forall j :: 0 <= j < |terms| ==> !Contains(s, terms[j])
    ensures !ContainsAny(s, terms)
  {
    if |terms| > 0 {
      NoTermContained(s, terms[1..]);
    }
  }

  /** A list one of whose terms is found is matched. */
  lemma {:induction false} TermContained(s: string, terms: seq<string>, j: int)
    requires 0 <= j < |terms| && Contains(s, terms[j])
    ensures ContainsAny(s, terms)
  {
    if j > 0 {
      assert terms[1..][j - 1] == terms[j];
      TermContained(s, terms[1..], j - 1);
    }
  }

  /** Without the letters c, b, p, g, and one of h and a, no meat term can occur. */
  lemma NoMeatTerm(s: string)
    requires 'c' !in s && 'b' !in s && 'p' !in s && 'g' !in s && ('h' !in s || 'a' !in s)
    ensures !ContainsAny(s, MeatTerms)
  {
    AbsentCharNotContained(s, "chicken", 'c');
    AbsentCharNotContained(s, "beef", 'b');
    AbsentCharNotContained(s, "pork", 'p');
    if 'h' !in s {
      AbsentCharNotContained(s, "ham", 'h');
    } else {
      AbsentCharNotContained(s, "ham", 'a');
    }
    AbsentCharNotContained(s, "egg", 'g');
    NoTermContained(s, MeatTerms);
  }

  /** Without the letters c, p, r and z, no dairy or pasta term can occur. */
  lemma NoDairyTerm(s: string)
    requires 'c' !in s && 'p' !in s && 'r' !in s && 'z' !in s
    ensures !ContainsAny(s, DairyTerms)
  {
    AbsentCharNotContained(s, "cheese", 'c');
    AbsentCharNotContained(s, "pasta", 'p');
    AbsentCharNotContained(s, "ricotta", 'r');
    AbsentCharNotContained(s, "mozzarella", 'z');
    AbsentCharNotContained(s, "cheddar", 'c');
    NoTermContained(s, DairyTerms);
  }

  /** Without the letters j, h, p and m, no spread term can occur. */
  lemma NoSpreadTerm(s: string)
    requires 'j' !in s && 'h' !in s && 'p' !in s && 'm' !in s
    ensures !ContainsAny(s, SpreadTerms)
  {
    AbsentCharNotContained(s, "jam", 'j');
    AbsentCharNotContained(s, "honey", 'h');
    AbsentCharNotContained(s, "peanut butter", 'p');
    AbsentCharNotContained(s, "apple butter", 'p');
    AbsentCharNotContained(s, "marmalade", 'm');
    AbsentCharNotContained(s, "tahini", 'h');
    NoTermContained(s, SpreadTerms);
  }

  lemma SteakLetters(name: string)
    requires name == "Steak"
    ensures var s := Lower(name);
      'c' !in s && 'b' !in s && 'p' !in s && 'g' !in s && 'h' !in s && 'r' !in s && 'z' !in s && 'j' !in s && 'm' !in s
  {
    assert Lower(name) == "steak";
  }

  /** No keyword list mentions "steak", so it falls through to the vegetarian default. */
  lemma SteakExample(name: string)
    requires name == "Steak"
    ensures Classify(name) == Vegetarian
  {
    SteakLetters(name);
    NoMeatTerm(Lower(name));
    NoDairyTerm(Lower(name));
    NoSpreadTerm(Lower(name));
  }

  lemma JamLetters(name: string)
    requires name == "Jam"
    ensures var s := Lower(name);
      'c' !in s && 'b' !in s && 'p' !in s && 'g' !in s && 'h' !in s && 'r' !in s && 'z' !in s && s[..3] == "jam"
  {
    assert Lower(name) == "jam";
  }

  /** "Jam" is a spread and mentions nothing of higher priority. */
  lemma JamExample(name: string)
    requires name == "Jam"
    ensures Classify(name) == Vegan
  {
    JamLetters(name);
    var lower := Lower(name);
    NoMeatTerm(lower);
    NoDairyTerm(lower);
    TermContained(lower, SpreadTerms, 0);
  }

  lemma HoneyLetters(name: string)
    requires name == "Honey"
    ensures var s := Lower(name);
      'c' !in s && 'b' !in s && 'p' !in s && 'g' !in s && 'a' !in s && 'r' !in s && 'z' !in s && s[..5] == "honey"
  {
    assert Lower(name) == "honey";
  }

  /** "Honey" is a spread; its "h" does not make it match "ham". */
  lemma HoneyExample(name: string)
    requires name == "Honey"
    ensures Classify(name) == Vegan
  {
    HoneyLetters(name);
    var lower := Lower(name);
    NoMeatTerm(lower);
    NoDairyTerm(lower);
    TermContained(lower, SpreadTerms, 1);
  }
}
