/** The Python values the two stages work on: decoded JSON, spreadsheet cells,
    the exceptions that escape them, and the `str` operations they use. */
module Runtime {

  datatype Option<+T> = None | Some(value: T)

  /** The exception classes the stages raise and do not catch. */
  datatype PyError = TypeError | IndexError | AttributeError

  /** What a Python call does: return a value, or raise an exception that escapes it. */
  datatype Outcome<+T> = Returned(value: T) | Raised(error: PyError)

  /** A spreadsheet cell as pandas or openpyxl delivers it: text, or the NaN
      that pandas reads for an empty cell. A cell openpyxl holds no value for
      (Python's None) is not a Value: it is a key missing from the sheet map. */
  datatype Value = Text(s: string) | NaN

  /** Python's truth value of a cell: None and the empty string are false, NaN is true. */
  predicate Truthy(v: Option<Value>)
  {
    v.Some? && (v.value.NaN? || v.value.s != "")
  }

  /** JSON as `json.loads` decodes it. An object keeps its members in the
      order of the text; floating-point numbers are not modelled. */
  datatype Json =
    | JNull
    | JBool(b: bool)
    | JNum(n: int)
    | JStr(s: string)
    | JArr(items: seq<Json>)
    | JObj(members: seq<(string, Json)>)

  function Max(a: int, b: int): int
  {
    if a < b then b else a
  }

  function Min(a: int, b: int): int
  {
    if a < b then a else b
  }

  /** `d[k]` on a decoded object: of duplicate members, `json.loads` keeps the last. */
  function Lookup(members: seq<(string, Json)>, k: string): (r: Option<Json>)
    ensures r.Some? ==> (k, r.value) in members
    ensures r.None? ==> forall i :: 0 <= i < |members| ==> members[i].0 != k
    decreases |members|
  {
    if members == [] then None
    else if members[|members| - 1].0 == k then Some(members[|members| - 1].1)
    else Lookup(members[..|members| - 1], k)
  }

  /** A key is found exactly when some member has it, and then the value is
      that of the last such member. */
  lemma {:induction false} LookupFindsLast(members: seq<(string, Json)>, k: string)
    ensures Lookup(members, k).None? <==> forall i :: 0 <= i < |members| ==> members[i].0 != k
    ensures Lookup(members, k).Some? ==>
      exists i :: 0 <= i < |members| && members[i] == (k, Lookup(members, k).value) &&
        forall j :: i < j < |members| ==> members[j].0 != k
    decreases |members|
  {
    if members != [] && members[|members| - 1].0 != k {
      var init := members[..|members| - 1];
      LookupFindsLast(init, k);
      assert forall i :: 0 <= i < |init| ==> init[i] == members[i];
    }
  }

  /** `obj.get(k, default)` on a decoded object; any other value yields the default. */
  function GetOr(obj: Json, k: string, default: Json): (r: Json)
    ensures r == default || (obj.JObj? && (k, r) in obj.members)
    ensures !obj.JObj? || (forall i :: 0 <= i < |obj.members| ==> obj.members[i].0 != k) ==> r == default
    ensures obj.JObj? && (exists i :: 0 <= i < |obj.members| && obj.members[i].0 == k) ==> (k, r) in obj.members
  {
    if obj.JObj? then
      LookupFindsLast(obj.members, k);
      match Lookup(obj.members, k)
      case Some(v) => v
      case None => default
    else default
  }

  /** When the object has members named k, `get` returns the value of the
      last of them, as `json.loads` keeps the last duplicate. */
  lemma GetOrFindsLast(obj: Json, k: string, default: Json)
    requires obj.JObj? && exists i :: 0 <= i < |obj.members| && obj.members[i].0 == k
    ensures exists i :: 0 <= i < |obj.members| && obj.members[i] == (k, GetOr(obj, k, default)) &&
                        (forall j :: i < j < |obj.members| ==> obj.members[j].0 != k)
  {
    LookupFindsLast(obj.members, k);
  }

  /** `pat` occurs in `s` starting at index i. */
  predicate OccursAt(s: string, pat: string, i: int)
  {
    0 <= i && i + |pat| <= |s| && s[i..i + |pat|] == pat
  }

  lemma OccursAtTail(s: string, pat: string, i: int)
    requires |s| > 0 && i >= 1
    ensures OccursAt(s, pat, i) <==> OccursAt(s[1..], pat, i - 1)
  {
    if i + |pat| <= |s| {
      assert s[1..][i - 1..i - 1 + |pat|] == s[i..i + |pat|];
    }
  }

  /** `s.find(pat)`: the first index at which `pat` occurs, so `pat in s` is `Find(s, pat).Some?`. */
  function Find(s: string, pat: string): (r: Option<nat>)
    ensures r.Some? ==> OccursAt(s, pat, r.value)
    ensures r.Some? ==> forall j :: 0 <= j < r.value ==> !OccursAt(s, pat, j)
    ensures r.None? ==> forall j :: !OccursAt(s, pat, j)
    decreases |s|
  {
    if |s| < |pat| then None
    else if s[..|pat|] == pat then Some(0)
    else
      var rest := Find(s[1..], pat);
      assert forall j :: 1 <= j ==> (OccursAt(s, pat, j) <==> OccursAt(s[1..], pat, j - 1)) by {
        forall j | 1 <= j { OccursAtTail(s, pat, j); }
      }
      match rest
      case Some(i) => Some(i + 1)
      case None => None
  }
}
