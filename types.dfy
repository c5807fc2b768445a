/** The data model: the closed sets of information types and operator kinds, the
    dynamically typed values a fact can hold, rules (immutable) and states (facts
    whose provenance is stamped once, right after they are produced). */
module Types {
  import opened Strings

  /** The kinds of information a state can hold, in declaration order. */
  datatype InfoType =
    | PersonName | Date | LocationName | CityName | CountryName | NumericalValue
    | EventName | ArtworkName | OrganizationName | Concept | TextSnippet | Url
    | TableData | CodeOutput | Duration | CurrencyValue | Boolean | Other

  /** The kinds of operation a rule can perform, in declaration order. */
  datatype OperatorType =
    | Search | Calculate | RunCode | TableLookup | ExtractInfo | FilterTable | AggregateTable

  /** The enum member's `.name`. */
  function InfoTypeName(t: InfoType): string
  {
    match t
    case PersonName => "PERSON_NAME"
    case Date => "DATE"
    case LocationName => "LOCATION_NAME"
    case CityName => "CITY_NAME"
    case CountryName => "COUNTRY_NAME"
    case NumericalValue => "NUMERICAL_VALUE"
    case EventName => "EVENT_NAME"
    case ArtworkName => "ARTWORK_NAME"
    case OrganizationName => "ORGANIZATION_NAME"
    case Concept => "CONCEPT"
    case TextSnippet => "TEXT_SNIPPET"
    case Url => "URL"
    case TableData => "TABLE_DATA"
    case CodeOutput => "CODE_OUTPUT"
    case Duration => "DURATION"
    case CurrencyValue => "CURRENCY_VALUE"
    case Boolean => "BOOLEAN"
    case Other => "OTHER"
  }

  function OperatorName(op: OperatorType): string
  {
    match op
    case Search => "SEARCH"
    case Calculate => "CALCULATE"
    case RunCode => "RUN_CODE"
    case TableLookup => "TABLE_LOOKUP"
    case ExtractInfo => "EXTRACT_INFO"
    case FilterTable => "FILTER_TABLE"
    case AggregateTable => "AGGREGATE_TABLE"
  }

  const AllInfoTypes: seq<InfoType> :=
    [PersonName, Date, LocationName, CityName, CountryName, NumericalValue,
     EventName, ArtworkName, OrganizationName, Concept, TextSnippet, Url,
     TableData, CodeOutput, Duration, CurrencyValue, Boolean, Other]

  const AllOperatorTypes: seq<OperatorType> :=
    [Search, Calculate, RunCode, TableLookup, ExtractInfo, FilterTable, AggregateTable]

  /** Eighteen information types, each listed once; the names tell them apart. */
  lemma InfoTypeEnumeration()
    ensures |AllInfoTypes| == 18
    ensures forall t: InfoType :: t in AllInfoTypes
    ensures forall i, j :: 0 <= i < j < |AllInfoTypes| ==> AllInfoTypes[i] != AllInfoTypes[j]
    ensures forall t, u :: InfoTypeName(t) == InfoTypeName(u) ==> t == u
  {
    forall t: InfoType ensures t in AllInfoTypes {
      match t
      case PersonName => assert AllInfoTypes[0] == t;
      case Date => assert AllInfoTypes[1] == t;
      case LocationName => assert AllInfoTypes[2] == t;
      case CityName => assert AllInfoTypes[3] == t;
      case CountryName => assert AllInfoTypes[4] == t;
      case NumericalValue => assert AllInfoTypes[5] == t;
      case EventName => assert AllInfoTypes[6] == t;
      case ArtworkName => assert AllInfoTypes[7] == t;
      case OrganizationName => assert AllInfoTypes[8] == t;
      case Concept => assert AllInfoTypes[9] == t;
      case TextSnippet => assert AllInfoTypes[10] == t;
      case Url => assert AllInfoTypes[11] == t;
      case TableData => assert AllInfoTypes[12] == t;
      case CodeOutput => assert AllInfoTypes[13] == t;
      case Duration => assert AllInfoTypes[14] == t;
      case CurrencyValue => assert AllInfoTypes[15] == t;
      case Boolean => assert AllInfoTypes[16] == t;
      case Other => assert AllInfoTypes[17] == t;
    }
  }

  /** Seven operator kinds, each listed once; the names tell them apart. */
  lemma OperatorTypeEnumeration()
    ensures |AllOperatorTypes| == 7
    ensures forall op: OperatorType :: op in AllOperatorTypes
    ensures forall i, j :: 0 <= i < j < |AllOperatorTypes| ==> AllOperatorTypes[i] != AllOperatorTypes[j]
    ensures forall a, b :: OperatorName(a) == OperatorName(b) ==> a == b
  {
    forall op: OperatorType ensures op in AllOperatorTypes {
      match op
      case Search => assert AllOperatorTypes[0] == op;
      case Calculate => assert AllOperatorTypes[1] == op;
      case RunCode => assert AllOperatorTypes[2] == op;
      case TableLookup => assert AllOperatorTypes[3] == op;
      case ExtractInfo => assert AllOperatorTypes[4] == op;
      case FilterTable => assert AllOperatorTypes[5] == op;
      case AggregateTable => assert AllOperatorTypes[6] == op;
    }
  }

  /** A Python value as the core and the table operators see it. Dictionaries are
      keyed by strings (column names); floats are exact reals. */
  datatype Value =
    | NoneValue
    | BoolValue(b: bool)
    | IntValue(i: int)
    | FloatValue(r: real)
    | StrValue(s: string)
    | DateValue(year: int, month: int, day: int)
    | ListValue(items: seq<Value>)
    | DictValue(entries: map<string, Value>)

  /** Python truthiness of a value. */
  predicate Truthy(v: Value)
  {
    match v
    case NoneValue => false
    case BoolValue(b) => b
    case IntValue(i) => i != 0
    case FloatValue(r) => r != 0.0
    case StrValue(s) => s != ""
    case DateValue(_, _, _) => true
    case ListValue(items) => items != []
    case DictValue(entries) => entries != map[]
  }

  /** Python's `str(value)` (and `repr(value)`): library behaviour, supplied by the caller. */
  type Render = Value -> string

  /** What an operator produces: a value tagged with the type it turned out to have. */
  datatype Output = Output(value: Value, infoType: InfoType)

  /** A transition rule. `id` is the rule object's identity: two catalog entries
      with equal fields are still different rules. */
  datatype Rule = Rule(
    id: nat,
    operator: OperatorType,
    inputTypes: seq<InfoType>,
    outputType: InfoType,
    complexity: int,
    template: string)

  function InputNames(types: seq<InfoType>): (names: seq<string>)
    ensures |names| == |types|
    ensures forall i :: 0 <= i < |types| ==> names[i] == InfoTypeName(types[i])
  {
    if types == [] then [] else [InfoTypeName(types[0])] + InputNames(types[1..])
  }

  /** `Rule.__repr__` */
  function RuleRepr(r: Rule): string
  {
    "Rule(" + OperatorName(r.operator) + ": (" + Join(InputNames(r.inputTypes), ", ") + ") -> "
      + InfoTypeName(r.outputType) + ", complexity=" + IntToString(r.complexity) + ")"
  }

  /** One fact. Its value and type never change; its provenance is stamped by the
      rule executor right after the state is produced. */
  class State {
    const value: Value
    const infoType: InfoType
    var sourceRule: Option<Rule>
    var sourceInputs: seq<State>

    /** `State(value, info_type, source_rule=None, source_inputs=None)` */
    constructor (value: Value, infoType: InfoType, sourceRule: Option<Rule>, sourceInputs: Option<seq<State>>)
      ensures this.value == value && this.infoType == infoType
      ensures this.sourceRule == sourceRule
      ensures this.sourceInputs == (if sourceInputs.Some? then sourceInputs.value else [])
    {
      this.value := value;
      this.infoType := infoType;
      this.sourceRule := sourceRule;
      this.sourceInputs := if sourceInputs.Some? && sourceInputs.value != [] then sourceInputs.value else [];
    }
  }

  /** The values states hold, in order. */
  function Values(states: seq<State>): (vs: seq<Value>)
    ensures |vs| == |states|
    ensures forall i :: 0 <= i < |states| ==> vs[i] == states[i].value
  {
    if states == [] then [] else [states[0].value] + Values(states[1..])
  }

  /** The value text shown by `State.__repr__`, given the value's `repr`. */
  function ShownValue(valueRepr: string): (shown: string)
    ensures |shown| <= 50
    ensures |valueRepr| <= 50 ==> shown == valueRepr
    ensures |valueRepr| > 50 ==> |shown| == 50 && StartsWith(valueRepr, shown[..47]) && EndsWith(shown, "...")
  {
    if |valueRepr| > 50 then valueRepr[..47] + "..." else valueRepr
  }

  /** `State.__repr__`, given the `repr` of the state's value. */
  function StateRepr(valueRepr: string, t: InfoType): string
  {
    "State(value=" + ShownValue(valueRepr) + ", type=" + InfoTypeName(t) + ")"
  }
}
