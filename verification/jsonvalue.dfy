/** The decoded body of the lookup API's response, as `response.json()` hands it to the bot:
    a JSON object whose members are scalars, kept in the order the body lists them. */
module JsonValue {
  import opened Wrappers
  import opened PyStr

  /** A JSON scalar as Python decodes it: `str`, `int`, `bool` or `None`. */
  datatype Value = Str(s: string) | Int(i: int) | Bool(b: bool) | Null

  /** One member of the object: its key and its value. */
  type Field = (string, Value)

  /** What `response.json()` returned: an object (a `dict`, in insertion order) or any other
      JSON document (a list, a bare string or number), which has no `get` method. */
  datatype Body = Object(fields: seq<Field>) | NotObject

  /** Python's truth value of the decoded scalar. */
  predicate Truthy(v: Value) {
    match v
    case Str(s) => s != []
    case Int(i) => i != 0
    case Bool(b) => b
    case Null => false
  }

  /** Python's `str(v)`, which is also what an f-string prints for these types. */
  function ToStr(v: Value): string {
    match v
    case Str(s) => s
    case Int(i) => IntToString(i)
    case Bool(b) => if b then "True" else "False"
    case Null => "None"
  }

  /** The values the bot treats as "no information", compared after stripping. */
  const Placeholders: seq<string> := ["", "NA", "N/A"]

  /** A field value the reply shows: truthy, and not a placeholder once stripped. */
  predicate Meaningful(v: Value) {
    Truthy(v) && Strip(ToStr(v)) !in Placeholders
  }

  /** A string is meaningful unless it strips to a placeholder; the comparison is
      case-sensitive, so "na" is kept. */
  lemma StrMeaningful(s: string)
    ensures Meaningful(Str(s)) <==> Strip(s) != "" && Strip(s) != "NA" && Strip(s) != "N/A"
  {
    if s == [] {
      assert Strip(s) == "";
    }
  }

  /** An integer is meaningful exactly when it is not zero: its decimal form is never blank
      nor a placeholder. */
  lemma IntMeaningful(i: int)
    ensures Meaningful(Int(i)) <==> i != 0
  {
    var t := IntToString(i);
    if i != 0 {
      IntToStringDigits(i);
      assert IsDigit(t[0]) || t[0] == '-';
      assert |t| > 1 ==> IsDigit(t[|t| - 1]);
      StripOfTrimmed(t);
      assert Strip(t) == t;
      assert t[0] != 'N';
      assert t !in Placeholders;
    }
  }

  /** Which values are meaningful, type by type: `true`, a non-zero integer, a string that does
      not strip to a placeholder; never `null`, `0` or `false`. */
  lemma MeaningfulCases(v: Value)
    ensures Meaningful(v) <==>
      match v
      case Str(s) => Strip(s) != "" && Strip(s) != "NA" && Strip(s) != "N/A"
      case Int(i) => i != 0
      case Bool(b) => b
      case Null => false
  {
    match v
    case Str(s) => StrMeaningful(s);
    case Int(i) => IntMeaningful(i);
    case Bool(b) =>
      if b {
        StripOfTrimmed("True");
      }
    case Null =>
  }

  /** The keys of a `dict` are distinct. */
  predicate DistinctKeys(fields: seq<Field>) {
    forall i, j :: 0 <= i < j < |fields| ==> fields[i].0 != fields[j].0
  }

  /** `dict.get(key)`: the value stored under `key`, or `None` when there is none. */
  function Get(fields: seq<Field>, key: string): (r: Option<Value>)
    ensures r.None? <==> forall i :: 0 <= i < |fields| ==> fields[i].0 != key
  {
    if fields == [] then None
    else if fields[0].0 == key then Some(fields[0].1)
    else Get(fields[1..], key)
  }

  /** In a `dict`, `get` finds the one value stored under the key. */
  lemma {:induction false} GetFinds(fields: seq<Field>, i: nat)
    requires DistinctKeys(fields)
    requires i < |fields|
    ensures Get(fields, fields[i].0) == Some(fields[i].1)
  {
    if i > 0 {
      assert fields[0].0 != fields[i].0;
      GetFinds(fields[1..], i - 1);
    }
  }
}
