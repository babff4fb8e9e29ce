/** The dynamically typed values the scanner code handles: decoded JSON from
    the engines, the states kept in the control records, and report cells. */
module Values {
  import opened Wrappers
  import opened Dicts
  import opened Strings

  /** A Python value as decoded from JSON (numbers are integers here). */
  datatype Value =
    | VNone
    | VBool(b: bool)
    | VInt(i: int)
    | VStr(s: string)
    | VList(items: seq<Value>)
    | VDict(entries: Dict<Value>)

  /** Python truthiness (`if v:`, `bool(v)`, `x and v`). */
  predicate Truthy(v: Value) {
    match v
    case VNone => false
    case VBool(b) => b
    case VInt(i) => i != 0
    case VStr(s) => s != []
    case VList(items) => items != []
    case VDict(entries) => entries != []
  }

  /** Python's `v == True`, which also holds of the integer 1. */
  predicate EqualsTrue(v: Value) {
    v == VBool(true) || v == VInt(1)
  }

  lemma EqualsTrueIsTruthy(v: Value)
    ensures EqualsTrue(v) ==> Truthy(v)
  {
  }

  /** Python's `type(v).__name__`. */
  function TypeName(v: Value): string {
    match v
    case VNone => "NoneType"
    case VBool(_) => "bool"
    case VInt(_) => "int"
    case VStr(_) => "str"
    case VList(_) => "list"
    case VDict(_) => "dict"
  }

  /** Python's `str(v)` (and `f"{v}"`). A list or dict renders as a bracketed
      placeholder that opens with the same bracket as Python's text. */
  function Str(v: Value): string {
    match v
    case VNone => "None"
    case VBool(b) => if b then "True" else "False"
    case VInt(i) => IntToString(i)
    case VStr(s) => s
    case VList(_) => "[...]"
    case VDict(_) => "{...}"
  }

  /** The text `csv.writer` writes for a cell: `None` becomes the empty field. */
  function CsvCell(v: Value): string {
    if v.VNone? then "" else Str(v)
  }

  /** The message of the `AttributeError` raised by `v.get(...)` or
      `v.items()` on a value that is not a dict. */
  function NoAttributeMessage(v: Value, attribute: string): string {
    "'" + TypeName(v) + "' object has no attribute '" + attribute + "'"
  }

  /** Python's `v.get(k, default)`: fails with `AttributeError` unless `v` is a dict. */
  function GetAttr(v: Value, k: string, default: Value): (r: Result<Value, string>)
    ensures r.Success? <==> v.VDict?
    ensures v.VDict? && HasKey(v.entries, k) ==> r == Success(Get(v.entries, k).value)
    ensures v.VDict? && !HasKey(v.entries, k) ==> r == Success(default)
  {
    if v.VDict? then Success(GetOr(v.entries, k, default))
    else Failure(NoAttributeMessage(v, "get"))
  }

  /** `str(b).lower() == "true"` holds exactly when `b` is `True`: the
      textual boolean a control line stores reads back as the same boolean. */
  lemma LowerOfBoolText(b: bool)
    ensures (Lower(Str(VBool(b))) == "true") == b
  {
    if b {
      assert Lower("True") == "true";
    } else {
      assert |Lower("False")| == 5;
    }
  }
}
