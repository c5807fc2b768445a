/** The static rule catalog: nineteen rules, listed in the order the resolver
    and the planners scan them. Each rule's `id` is its position. Templates are
    written split at their placeholders; each is the one string of the catalog. */
module Rules {
  import opened Strings
  import opened Types

  const RULES_DB: seq<Rule> :=
    [// search rules
     Rule(0, Search, [PersonName], Date, 1, "Find the birth date of " + "{input0}"),
     Rule(1, Search, [PersonName], LocationName, 1, "Find the birth place of " + "{input0}"),
     Rule(2, Search, [PersonName], Concept, 2, "Find a notable concept or achievement associated with " + "{input0}"),
     Rule(3, Search, [EventName], Date, 1, "Find the start date of the event " + "{input0}"),
     Rule(4, Search, [EventName], LocationName, 1, "Find the primary location of the event " + "{input0}"),
     Rule(5, Search, [LocationName], CityName, 1, "Identify the city for the location " + "{input0}"),
     Rule(6, Search, [LocationName], CountryName, 1, "Identify the country for the location " + "{input0}"),
     Rule(7, Search, [LocationName], NumericalValue, 1, "Find the height or elevation of " + "{input0}"),
     Rule(8, Search, [CityName], NumericalValue, 1, "Find the population of " + "{input0}"),
     Rule(9, Search, [CountryName], CityName, 1, "Find the capital city of " + "{input0}"),
     Rule(10, Search, [ArtworkName], LocationName, 1, "Find where " + "{input0}" + " is located"),
     Rule(11, Search, [ArtworkName], PersonName, 1, "Find the creator of " + "{input0}"),
     Rule(12, Search, [CountryName], TextSnippet, 1, "Find the currency used in " + "{input0}"),
     Rule(13, Search, [CityName], CountryName, 1, "Find the country of " + "{input0}"),
     // calculation rules
     Rule(14, Calculate, [Date, Date], Duration, 2, "Calculate the time duration in years between " + "{input0}" + " and " + "{input1}"),
     Rule(15, Calculate, [NumericalValue, NumericalValue], NumericalValue, 1, "Calculate the sum of " + "{input0}" + " and " + "{input1}"),
     Rule(16, Calculate, [NumericalValue, NumericalValue], NumericalValue, 1, "Calculate the result of dividing " + "{input0}" + " by " + "{input1}"),
     // code rules
     Rule(17, RunCode, [TableData], NumericalValue, 3, "Using code, find the maximum value in the list " + "{input0}"),
     Rule(18, RunCode, [TableData], TableData, 3, "Using code, filter the list " + "{input0}" + " based on criteria X")
    ]

  /** Each rule takes one or two inputs and costs 1, 2 or 3. */
  predicate WellShaped(r: Rule)
  {
    1 <= |r.inputTypes| <= 2 && 1 <= r.complexity <= 3
  }

  /** Only SEARCH, CALCULATE and RUN_CODE occur: SEARCH and RUN_CODE rules take
      one input, CALCULATE rules two inputs of one type. */
  predicate OperatorShaped(r: Rule)
  {
    match r.operator
    case Search => |r.inputTypes| == 1
    case RunCode => |r.inputTypes| == 1
    case Calculate => |r.inputTypes| == 2 && r.inputTypes[0] == r.inputTypes[1]
    case _ => false
  }

  /** Nineteen rules, identified by position, all well shaped. */
  lemma CatalogShape()
    ensures |RULES_DB| == 19
    ensures forall i :: 0 <= i < |RULES_DB| ==> RULES_DB[i].id == i
    ensures forall i :: 0 <= i < |RULES_DB| ==> WellShaped(RULES_DB[i]) && OperatorShaped(RULES_DB[i])
  {
  }

  /** Each rule of the catalog is well shaped. */
  lemma CatalogMember(x: Rule)
    requires x in RULES_DB
    ensures WellShaped(x) && OperatorShaped(x)
  {
    CatalogShape();
    var i :| 0 <= i < |RULES_DB| && RULES_DB[i] == x;
  }

  /** The catalog's rules are pairwise distinct (by identity). */
  lemma CatalogDistinct()
    ensures forall i, j :: 0 <= i < j < |RULES_DB| ==> RULES_DB[i] != RULES_DB[j]
  {
    CatalogShape();
  }

  /** The rules taking a PERSON_NAME are exactly the first three, producing DATE,
      LOCATION_NAME and CONCEPT. */
  lemma PersonRules()
    ensures forall i :: 0 <= i < |RULES_DB| ==> (PersonName in RULES_DB[i].inputTypes <==> i < 3)
    ensures RULES_DB[0].outputType == Date && RULES_DB[1].outputType == LocationName
    ensures RULES_DB[2].outputType == Concept
  {
  }

  /** The producers of CITY_NAME are exactly LOCATION_NAME -> CITY_NAME and
      COUNTRY_NAME -> CITY_NAME, both searches. */
  lemma CityProducers()
    ensures forall i :: 0 <= i < |RULES_DB| ==> (RULES_DB[i].outputType == CityName <==> i == 5 || i == 9)
    ensures RULES_DB[5].operator == Search && RULES_DB[5].inputTypes == [LocationName]
    ensures RULES_DB[9].operator == Search && RULES_DB[9].inputTypes == [CountryName]
  {
  }

  /** The same producers, as rules rather than positions. */
  lemma CityProducerRules()
    ensures forall x :: x in RULES_DB && x.outputType == CityName <==> x == RULES_DB[5] || x == RULES_DB[9]
  {
    CityProducers();
    forall x | x in RULES_DB && x.outputType == CityName ensures x == RULES_DB[5] || x == RULES_DB[9] {
      var i :| 0 <= i < |RULES_DB| && RULES_DB[i] == x;
    }
  }

  /** Every template mentions its first input, and every two-input template its second. */
  lemma TemplatePlaceholders()
    ensures forall i :: 0 <= i < |RULES_DB| ==> Contains(RULES_DB[i].template, "{input0}")
    ensures forall i :: 0 <= i < |RULES_DB| && |RULES_DB[i].inputTypes| == 2 ==>
      Contains(RULES_DB[i].template, "{input1}")
  {
    forall i | 0 <= i < |RULES_DB|
      ensures Contains(RULES_DB[i].template, "{input0}")
      ensures |RULES_DB[i].inputTypes| == 2 ==> Contains(RULES_DB[i].template, "{input1}")
    {
      TemplateMentionsInputs(i);
    }
  }

  lemma TemplateMentionsInputs(i: nat)
    requires i < |RULES_DB|
    ensures Contains(RULES_DB[i].template, "{input0}")
    ensures |RULES_DB[i].inputTypes| == 2 ==> Contains(RULES_DB[i].template, "{input1}")
  {
    if i == 0 {
      ContainsEnd("Find the birth date of ", "{input0}");
    } else if i == 1 {
      ContainsEnd("Find the birth place of ", "{input0}");
    } else if i == 2 {
      ContainsEnd("Find a notable concept or achievement associated with ", "{input0}");
    } else if i == 3 {
      ContainsEnd("Find the start date of the event ", "{input0}");
    } else if i == 4 {
      ContainsEnd("Find the primary location of the event ", "{input0}");
    } else if i == 5 {
      ContainsEnd("Identify the city for the location ", "{input0}");
    } else if i == 6 {
      ContainsEnd("Identify the country for the location ", "{input0}");
    } else if i == 7 {
      ContainsEnd("Find the height or elevation of ", "{input0}");
    } else if i == 8 {
      ContainsEnd("Find the population of ", "{input0}");
    } else if i == 9 {
      ContainsEnd("Find the capital city of ", "{input0}");
    } else if i == 10 {
      ContainsMiddle("Find where ", "{input0}", " is located");
    } else if i == 11 {
      ContainsEnd("Find the creator of ", "{input0}");
    } else if i == 12 {
      ContainsEnd("Find the currency used in ", "{input0}");
    } else if i == 13 {
      ContainsEnd("Find the country of ", "{input0}");
    } else if i == 14 {
      ContainsBoth("Calculate the time duration in years between ", "{input0}", " and ", "{input1}");
    } else if i == 15 {
      ContainsBoth("Calculate the sum of ", "{input0}", " and ", "{input1}");
    } else if i == 16 {
      ContainsBoth("Calculate the result of dividing ", "{input0}", " by ", "{input1}");
    } else if i == 17 {
      ContainsEnd("Using code, find the maximum value in the list ", "{input0}");
    } else if i == 18 {
      ContainsMiddle("Using code, filter the list ", "{input0}", " based on criteria X");
    }
  }
}
