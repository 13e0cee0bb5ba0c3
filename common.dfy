/** Vocabulary shared by the route handlers, the JSON-file store and the
    skill-tree editor: optional values, results, HTTP error statuses, JSON
    request values with JavaScript's truthiness, and first-match search over
    sequences (`Array.prototype.findIndex`). */
module Common {

  datatype Option<+T> = None | Some(value: T)

  datatype Result<+T, +E> = Ok(value: T) | Err(error: E)

  /** The error statuses the route handlers answer with. */
  datatype Status = Unauthorized | BadRequest | NotFound | InternalError
  {
    function Code(): (code: int) {
      match this
      case Unauthorized => 401
      case BadRequest => 400
      case NotFound => 404
      case InternalError => 500
    }
  }

  /** A parsed JSON value. Numbers are integers in this model. */
  datatype Json =
    | JNull
    | JBool(b: bool)
    | JNum(n: int)
    | JStr(s: string)
    | JArr(items: seq<Json>)
    | JObj(fields: map<string, Json>)

  /** JavaScript truthiness of a property value; `None` is `undefined`. */
  predicate Truthy(v: Option<Json>) {
    match v
    case None => false
    case Some(JNull) => false
    case Some(JBool(b)) => b
    case Some(JNum(n)) => n != 0
    case Some(JStr(s)) => s != ""
    case Some(_) => true
  }

  /** `const { key } = v`: reading a property of `null` throws (`Err`), a
      non-object value has no own properties, an object gives its field. */
  function Destructure(v: Json, key: string): (r: Result<Option<Json>, Status>)
    ensures r.Err? <==> v.JNull?
    ensures r.Err? ==> r.error == InternalError
    ensures r.Ok? && r.value.Some? ==> v.JObj? && key in v.fields && r.value.value == v.fields[key]
    ensures v.JObj? && key in v.fields ==> r == Ok(Some(v.fields[key]))
    ensures !v.JNull? && !(v.JObj? && key in v.fields) ==> r == Ok(None)
  {
    match v
    case JNull => Err(InternalError)
    case JObj(fields) => Ok(if key in fields then Some(fields[key]) else None)
    case _ => Ok(None)
  }

  /** `session?.user?.name` when it is truthy, that is set and non-empty. */
  function SessionUser(name: Option<string>): (r: Option<string>)
    ensures r.Some? <==> name.Some? && name.value != ""
    ensures r.Some? ==> r == name
  {
    if name.Some? && name.value != "" then name else None
  }

  /** The larger of two integers (`Math.max`). */
  function Max(a: int, b: int): (r: int)
    ensures r >= a && r >= b && (r == a || r == b)
  {
    if a >= b then a else b
  }

  /** The smaller of two integers (`Math.min`). */
  function Min(a: int, b: int): (r: int)
    ensures r <= a && r <= b && (r == a || r == b)
  {
    if a <= b then a else b
  }

  /** `findIndex`: the first index whose element satisfies `p`, or -1. */
  function FirstIndex<T>(s: seq<T>, p: T -> bool): (r: int)
    ensures -1 <= r < |s|
    ensures r == -1 <==> forall i :: 0 <= i < |s| ==> !p(s[i])
    ensures r >= 0 ==> p(s[r]) && forall i :: 0 <= i < r ==> !p(s[i])
  {
    if |s| == 0 then -1
    else if p(s[0]) then 0
    else
      var k := FirstIndex(s[1..], p);
      if k == -1 then -1 else k + 1
  }

  /** `Array.prototype.filter`: the elements satisfying `p`, in order. */
  function Filter<T(!new)>(s: seq<T>, p: T -> bool): (r: seq<T>)
    ensures |r| <= |s|
    ensures forall x :: x in r <==> x in s && p(x)
    ensures multiset(r) <= multiset(s)
  {
    if |s| == 0 then []
    else
      assert s == [s[0]] + s[1..];
      (if p(s[0]) then [s[0]] else []) + Filter(s[1..], p)
  }

  /** Filtering a concatenation filters each part, keeping the parts in order. */
  lemma {:induction false} FilterAppend<T(!new)>(a: seq<T>, b: seq<T>, p: T -> bool)
    ensures Filter(a + b, p) == Filter(a, p) + Filter(b, p)
  {
    if |a| == 0 {
      assert a + b == b;
    } else {
      var t := a[1..];
      var x := if p(a[0]) then [a[0]] else [];
      assert (a + b)[0] == a[0] && (a + b)[1..] == t + b;
      calc {
        Filter(a + b, p);
      ==
        x + Filter(t + b, p);
      ==  { FilterAppend(t, b, p); }
        x + (Filter(t, p) + Filter(b, p));
      ==
        (x + Filter(t, p)) + Filter(b, p);
      ==
        Filter(a, p) + Filter(b, p);
      }
    }
  }

  /** The filter of one more element at the back. */
  lemma FilterSnoc<T(!new)>(s: seq<T>, x: T, p: T -> bool)
    ensures Filter(s + [x], p) == Filter(s, p) + (if p(x) then [x] else [])
  {
    var last := if p(x) then [x] else [];
    assert [x][1..] == [] && Filter([x][1..], p) == [];
    assert Filter([x], p) == last + Filter([x][1..], p);
    assert Filter([x], p) == last;
    FilterAppend(s, [x], p);
  }

  /** `Array.prototype.map`: `f` applied to each element, in order. */
  function MapSeq<T, U>(s: seq<T>, f: T -> U): (r: seq<U>)
    ensures |r| == |s|
    ensures forall k :: 0 <= k < |s| ==> r[k] == f(s[k])
  {
    seq(|s|, k requires 0 <= k < |s| => f(s[k]))
  }

  /** Mapping a concatenation maps each part. */
  lemma MapSeqAppend<T, U>(a: seq<T>, b: seq<T>, f: T -> U)
    ensures MapSeq(a + b, f) == MapSeq(a, f) + MapSeq(b, f)
  {
    assert forall k :: 0 <= k < |a + b| ==> MapSeq(a + b, f)[k] == (MapSeq(a, f) + MapSeq(b, f))[k];
  }

  /** `splice(i, 1)`: the sequence without its element at `i`. */
  function RemoveAt<T>(s: seq<T>, i: nat): (r: seq<T>)
    requires i < |s|
    ensures |r| == |s| - 1
    ensures forall j :: 0 <= j < i ==> r[j] == s[j]
    ensures forall j :: i <= j < |r| ==> r[j] == s[j + 1]
    ensures multiset(r) + multiset{s[i]} == multiset(s)
  {
    assert s == s[..i] + [s[i]] + s[i + 1..];
    s[..i] + s[i + 1..]
  }
}
