/** The evaluation criteria, their string forms and the two scenario lists. */
module CriterionNames {
  import opened Text

  datatype CriterionName =
    | Education | Liberalism | Immigration | Environment | Security | Work
    | ProductionCost | Consumption | Durability | EnvironmentImpact | Noise

  /** The members in declaration order, the order in which the enum iterates. */
  const AllMembers: seq<CriterionName> :=
    [Education, Liberalism, Immigration, Environment, Security, Work,
     ProductionCost, Consumption, Durability, EnvironmentImpact, Noise]

  /** The member's name (`c.name`). */
  function Name(c: CriterionName): string {
    match c
    case Education => "EDUCATION"
    case Liberalism => "LIBERALISM"
    case Immigration => "IMMIGRATION"
    case Environment => "ENVIRONMENT"
    case Security => "SECURITY"
    case Work => "WORK"
    case ProductionCost => "PRODUCTION_COST"
    case Consumption => "CONSUMPTION"
    case Durability => "DURABILITY"
    case EnvironmentImpact => "ENVIRONMENT_IMPACT"
    case Noise => "NOISE"
  }

  /** `str(c)`: the member's value string. */
  function Str(c: CriterionName): string {
    match c
    case Education => "education"
    case Liberalism => "liberalism"
    case Immigration => "immigration"
    case Environment => "environment"
    case Security => "security"
    case Work => "work"
    case ProductionCost => "production_cost"
    case Consumption => "consumption"
    case Durability => "durability"
    case EnvironmentImpact => "environment_impact"
    case Noise => "noise"
  }

  /** The members of `cs`, in order, whose name is one of `names`. */
  function SelectByName(cs: seq<CriterionName>, names: seq<string>): seq<CriterionName>
  {
    if cs == [] then []
    else (if Name(cs[0]) in names then [cs[0]] else []) + SelectByName(cs[1..], names)
  }

  const PresidentialNames: seq<string> :=
    ["EDUCATION", "LIBERALISM", "IMMIGRATION", "ENVIRONMENT", "SECURITY", "WORK"]

  const CarNames: seq<string> :=
    ["PRODUCTION_COST", "CONSUMPTION", "DURABILITY", "ENVIRONMENT_IMPACT", "NOISE"]

  lemma {:induction false} SelectAppend(a: seq<CriterionName>, b: seq<CriterionName>, names: seq<string>)
    ensures SelectByName(a + b, names) == SelectByName(a, names) + SelectByName(b, names)
  {
    if a == [] {
      assert a + b == b;
    } else {
      assert (a + b)[0] == a[0] && (a + b)[1..] == a[1..] + b;
      SelectAppend(a[1..], b, names);
      var head := if Name(a[0]) in names then [a[0]] else [];
      calc {
        SelectByName(a + b, names);
        head + SelectByName(a[1..] + b, names);
        head + (SelectByName(a[1..], names) + SelectByName(b, names));
        (head + SelectByName(a[1..], names)) + SelectByName(b, names);
      }
    }
  }

  lemma {:induction false} SelectKeepsAll(cs: seq<CriterionName>, names: seq<string>)
    requires forall c :: c in cs ==> Name(c) in names
    ensures SelectByName(cs, names) == cs
  {
    if cs != [] {
      SelectKeepsAll(cs[1..], names);
    }
  }

  lemma {:induction false} SelectDropsAll(cs: seq<CriterionName>, names: seq<string>)
    requires forall c :: c in cs ==> Name(c) !in names
    ensures SelectByName(cs, names) == []
  {
    if cs != [] {
      SelectDropsAll(cs[1..], names);
    }
  }

  /** Selecting from `keep + drop` keeps exactly `keep` when the names single out `keep`. */
  lemma SelectSplit(cs: seq<CriterionName>, keep: seq<CriterionName>, drop: seq<CriterionName>, names: seq<string>)
    requires cs == keep + drop
    requires forall c :: c in keep ==> Name(c) in names
    requires forall c :: c in drop ==> Name(c) !in names
    ensures SelectByName(cs, names) == keep
  {
    SelectAppend(keep, drop, names);
    SelectKeepsAll(keep, names);
    SelectDropsAll(drop, names);
  }

  lemma SelectSplitDropFirst(cs: seq<CriterionName>, drop: seq<CriterionName>, keep: seq<CriterionName>, names: seq<string>)
    requires cs == drop + keep
    requires forall c :: c in keep ==> Name(c) in names
    requires forall c :: c in drop ==> Name(c) !in names
    ensures SelectByName(cs, names) == keep
  {
    SelectAppend(drop, keep, names);
    SelectKeepsAll(keep, names);
    SelectDropsAll(drop, names);
  }

  const Presidential: seq<CriterionName> := [Education, Liberalism, Immigration, Environment, Security, Work]
  const Cars: seq<CriterionName> := [ProductionCost, Consumption, Durability, EnvironmentImpact, Noise]

  /** `CriterionName.list_presidential()`: the six presidential members, in declaration order. */
  function ListPresidential(): (r: seq<CriterionName>)
    ensures r == [Education, Liberalism, Immigration, Environment, Security, Work]
  {
    SelectSplit(AllMembers, Presidential, Cars, PresidentialNames);
    SelectByName(AllMembers, PresidentialNames)
  }

  /** `CriterionName.list_cars()`: the five car members, in declaration order. */
  function ListCars(): (r: seq<CriterionName>)
    ensures r == [ProductionCost, Consumption, Durability, EnvironmentImpact, Noise]
  {
    SelectSplitDropFirst(AllMembers, Presidential, Cars, CarNames);
    SelectByName(AllMembers, CarNames)
  }

  /**
   * The two scenario lists (which `ListPresidential` and `ListCars` return) share no
   * member and, concatenated, are every member in declaration order.
   */
  lemma ScenarioListsPartition()
    ensures forall c :: !(c in Presidential && c in Cars)
    ensures Presidential + Cars == AllMembers
    ensures forall c: CriterionName :: c in AllMembers
  {
    forall c: CriterionName ensures c in AllMembers {
      match c
      case Education => assert AllMembers[0] == c;
      case Liberalism => assert AllMembers[1] == c;
      case Immigration => assert AllMembers[2] == c;
      case Environment => assert AllMembers[3] == c;
      case Security => assert AllMembers[4] == c;
      case Work => assert AllMembers[5] == c;
      case ProductionCost => assert AllMembers[6] == c;
      case Consumption => assert AllMembers[7] == c;
      case Durability => assert AllMembers[8] == c;
      case EnvironmentImpact => assert AllMembers[9] == c;
      case Noise => assert AllMembers[10] == c;
    }
  }

  /** No two members share a value string. */
  lemma StrInjective(a: CriterionName, b: CriterionName)
    ensures Str(a) == Str(b) <==> a == b
  {
  }

  /** Enum names are single words, and distinct members have distinct names. */
  lemma CriterionNameIsWord(a: CriterionName, b: CriterionName)
    ensures NoSpace(Name(a))
    ensures Name(a) == Name(b) <==> a == b
  {
  }
}
