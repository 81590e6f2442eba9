/** Decoded JSON as the normaliser sees it, with the parts of Python's object
    model it leans on: truthiness, `dict.get(key, default)`, `str(x)` and
    `repr(x)`. Objects are association lists in insertion order, as Python
    dicts are; a decoded JSON object has distinct keys. */
module Json {
  import opened Wrappers
  import Text
  import Numerals

  datatype Value =
    | Null
    | Bool(b: bool)
    | Int(i: int)
    | Str(s: string)
    | Arr(items: seq<Value>)
    | Obj(fields: seq<(string, Value)>)

  /** The string "N/A", the normaliser's default for absent fields. */
  const NA: Value := Str("N/A")

  /** Python's `bool(v)`: None, False, 0 and empty strings, lists and dicts
      are false; everything else is true. */
  predicate Truthy(v: Value) {
    match v
    case Null => false
    case Bool(b) => b
    case Int(i) => i != 0
    case Str(s) => |s| > 0
    case Arr(items) => |items| > 0
    case Obj(fields) => |fields| > 0
  }

  /** The value stored under `key`, if any. */
  function Lookup(fields: seq<(string, Value)>, key: string): Option<Value> {
    if |fields| == 0 then None
    else if fields[0].0 == key then Some(fields[0].1)
    else Lookup(fields[1..], key)
  }

  /** Lookup finds the first entry under the key, and nothing when no entry
      has the key. */
  lemma {:induction false} LookupFirst(fields: seq<(string, Value)>, key: string)
    ensures Lookup(fields, key).None? <==> forall k :: 0 <= k < |fields| ==> fields[k].0 != key
    ensures Lookup(fields, key).Some? ==>
              exists k :: 0 <= k < |fields| && fields[k] == (key, Lookup(fields, key).value)
                && forall j :: 0 <= j < k ==> fields[j].0 != key
  {
    if |fields| > 0 && fields[0].0 != key {
      LookupFirst(fields[1..], key);
      assert forall k :: 1 <= k < |fields| ==> fields[k] == fields[1..][k - 1];
      if Lookup(fields, key).Some? {
        var k :| 0 <= k < |fields[1..]| && fields[1..][k] == (key, Lookup(fields, key).value)
                && forall j :: 0 <= j < k ==> fields[1..][j].0 != key;
        assert fields[k + 1] == (key, Lookup(fields, key).value);
        assert forall j :: 0 <= j < k + 1 ==> fields[j].0 != key;
      }
    }
  }

  /** Python's `d.get(key, default)` on a dict. */
  function Get(fields: seq<(string, Value)>, key: string, default: Value): Value {
    Lookup(fields, key).GetOr(default)
  }

  /** Python's `v.get(key, default)` on any value: only dicts have `get`,
      anything else raises AttributeError, modelled as None. */
  function DictGet(v: Value, key: string, default: Value): (r: Option<Value>)
    ensures r.Some? <==> v.Obj?
    ensures v.Obj? && Lookup(v.fields, key).None? ==> r == Some(default)
    ensures v.Obj? && Lookup(v.fields, key).Some? ==> r == Lookup(v.fields, key)
  {
    if v.Obj? then Some(Get(v.fields, key, default)) else None
  }

  /** `d.get(key)` is truthy. */
  predicate FlagSet(fields: seq<(string, Value)>, key: string) {
    Truthy(Get(fields, key, Null))
  }

  /** Python's `repr` of a string: single quotes unless the string holds a
      single quote and no double quote; backslashes, the chosen quote and the
      line-break and tab characters are escaped. */
  function QuoteString(s: string): string {
    var q := if '\'' in s && '"' !in s then '"' else '\'';
    [q] + Escape(s, q) + [q]
  }

  function Escape(s: string, q: char): string {
    if |s| == 0 then ""
    else
      var c := s[0];
      var e :=
        if c == '\\' then "\\\\"
        else if c == q then ['\\', q]
        else if c == '\n' then "\\n"
        else if c == '\r' then "\\r"
        else if c == '\t' then "\\t"
        else [c];
      e + Escape(s[1..], q)
  }

  /** Python's `repr(v)` of the decoded value. */
  function Repr(v: Value): string
    decreases v
  {
    match v
    case Null => "None"
    case Bool(b) => if b then "True" else "False"
    case Int(i) => Numerals.Decimal(i)
    case Str(s) => QuoteString(s)
    case Arr(items) =>
      "[" + Text.Join(seq(|items|, k requires 0 <= k < |items| => Repr(items[k])), ", ") + "]"
    case Obj(fields) =>
      "{" + Text.Join(seq(|fields|, k requires 0 <= k < |fields| =>
                        QuoteString(fields[k].0) + ": " + Repr(fields[k].1)), ", ") + "}"
  }

  /** Python's `str(v)`: strings are themselves, everything else its repr. */
  function Render(v: Value): string {
    if v.Str? then v.s else Repr(v)
  }
}
