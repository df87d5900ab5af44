/** Decoded JSON as the PHP code sees it after `$response->json()`, and the
    two read operators that never fail: an `isset`/`??` chain with
    constant offsets and PHP truthiness (`if ($x)`, `?:`). */
module Json {

  datatype Option<+T> = None | Some(value: T)

  /** A decoded JSON value. JSON objects decode to ordered PHP arrays: `keys`
      is the member order, `fields` the members. Numbers are integers. */
  datatype Json =
    | JNull
    | JBool(b: bool)
    | JNum(n: int)
    | JStr(s: string)
    | JArr(items: seq<Json>)
    | JObj(keys: seq<string>, fields: map<string, Json>)

  /** One offset of an access `$x[...]`: a string key or an integer position. */
  datatype Seg = Name(name: string) | Index(i: int)

  function DigitChar(d: nat): (c: char)
    requires d < 10
    ensures '0' <= c <= '9'
  {
    (('0' as int) + d) as char
  }

  function Digits(n: nat): (r: string)
    ensures |r| >= 1
    ensures forall i :: 0 <= i < |r| ==> '0' <= r[i] <= '9'
  {
    if n < 10 then [DigitChar(n)] else Digits(n / 10) + [DigitChar(n % 10)]
  }

  /** PHP's decimal rendering of an integer, which is also how an integer
      array key and the JSON member name it came from are related. */
  function IntToString(n: int): (r: string)
    ensures |r| >= 1
    ensures n >= 0 ==> r[0] != '-'
    ensures n < 0 ==> r[0] == '-'
  {
    if n < 0 then "-" + Digits(-n) else Digits(n)
  }

  /** The member name an offset stands for in a JSON object. */
  function OffsetKey(s: Seg): string {
    match s
    case Name(k) => k
    case Index(i) => IntToString(i)
  }

  /** `$x[s]` inside `isset`/`??`: never fails, and a member holding null
      counts as absent. A string is indexed by character position (negative
      positions count from the end), an object by member name, a list by
      position. */
  function Dim(j: Json, s: Seg): (r: Option<Json>)
    ensures r.Some? ==> r.value != JNull
    ensures j.JObj? ==> r == (if OffsetKey(s) in j.fields && j.fields[OffsetKey(s)] != JNull
                              then Some(j.fields[OffsetKey(s)]) else None)
    ensures j.JNull? || j.JBool? || j.JNum? ==> r == None
  {
    match j
    case JObj(_, fields) =>
      var k := OffsetKey(s);
      if k in fields && fields[k] != JNull then Some(fields[k]) else None
    case JArr(items) =>
      if s.Index? && 0 <= s.i < |items| && items[s.i] != JNull then Some(items[s.i]) else None
    case JStr(str) =>
      if s.Index? && -|str| <= s.i < |str|
      then Some(JStr([str[if s.i < 0 then |str| + s.i else s.i]]))
      else None
    case _ => None
  }

  /** `$x[s1][s2]...` inside `isset`/`??`: absent as soon as one step is. */
  function Path(j: Json, segs: seq<Seg>): (r: Option<Json>)
    ensures r.Some? ==> r.value != JNull
    ensures j == JNull ==> r == None
    decreases |segs|
  {
    if segs == [] then (if j == JNull then None else Some(j))
    else
      match Dim(j, segs[0])
      case None => None
      case Some(v) => Path(v, segs[1..])
  }

  /** `lhs ?? fallback`. */
  function Coalesce(lhs: Option<Json>, fallback: Json): Json {
    match lhs
    case Some(v) => v
    case None => fallback
  }

  /** PHP truthiness of a decoded value: null, false, 0, "", "0" and the
      empty array are falsy. */
  predicate Truthy(j: Json) {
    match j
    case JNull => false
    case JBool(b) => b
    case JNum(n) => n != 0
    case JStr(s) => StringTruthy(s)
    case JArr(items) => |items| > 0
    case JObj(_, fields) => |fields| > 0
  }

  predicate StringTruthy(s: string) {
    s != "" && s != "0"
  }

  /** A member of an object that is set and not null, or the fallback. This is
      the reading of `$obj['k'] ?? d` in terms of the object's members. */
  function MemberOr(fields: map<string, Json>, k: string, fallback: Json): Json {
    if k in fields && fields[k] != JNull then fields[k] else fallback
  }

  /** A two-step `??` chain reads the inner member of the outer member. */
  lemma {:induction false} PathTwoNames(j: Json, a: string, b: string)
    ensures Path(j, [Name(a), Name(b)]) ==
            match Dim(j, Name(a))
            case None => None
            case Some(v) => Dim(v, Name(b))
  {
    var segs := [Name(a), Name(b)];
    match Dim(j, Name(a))
    case None =>
    case Some(v) =>
      assert segs[1..] == [Name(b)];
      assert [Name(b)][1..] == [];
      match Dim(v, Name(b))
      case None =>
      case Some(w) =>
        assert Path(w, []) == Some(w);
  }
}
