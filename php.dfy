/** The PHP runtime behaviour the update checker relies on: which reads throw
    and what they throw, `array_keys`, the case-insensitive version-tag
    regexes, ordered arrays built by `$a[$k] = $v`, and the outcome of one
    outbound HTTP call. */
module Php {
  import opened Json

  /** What a failing expression throws. Under the framework's error handler a
      PHP warning becomes an `ErrorException`; a `TypeError` is an `\Error`,
      which `catch (\Exception $e)` does not catch. */
  datatype Throwable =
    | ErrorException(message: string)
    | TypeError

  /** Whether `catch (\Exception $e)` catches it. */
  predicate IsException(t: Throwable) {
    !t.TypeError?
  }

  /** The outcome of evaluating a PHP expression or statement block. */
  datatype Eval<+T> = Val(value: T) | Throw(thrown: Throwable)

  /** One outbound HTTP GET: a response (status and body decoded by
      `->json()`, null when the body is not JSON) or a thrown transport
      failure such as a timeout. */
  datatype Fetch = Response(status: int, body: Json) | ConnectionFailed(message: string)

  /** `$response->successful()`: a response with a 2xx status. */
  predicate Successful(f: Fetch) {
    f.Response? && 200 <= f.status < 300
  }

  function UndefinedKey(k: string): string {
    "Undefined array key \"" + k + "\""
  }

  /** `$x['k']` outside `isset`/`??`, for a constant non-numeric key: a member
      that exists is returned even when it holds null; anything else throws. */
  function Read(j: Json, k: string): (r: Eval<Json>)
    ensures r.Val? <==> j.JObj? && k in j.fields
    ensures r.Val? ==> r.value == j.fields[k]
    ensures j.JObj? || j.JArr? ==> (r.Throw? ==> r.thrown == ErrorException(UndefinedKey(k)))
    ensures r.Throw? && r.thrown.TypeError? <==> j.JStr?
  {
    match j
    case JObj(_, fields) => if k in fields then Val(fields[k]) else Throw(ErrorException(UndefinedKey(k)))
    case JArr(_) => Throw(ErrorException(UndefinedKey(k)))
    case JStr(_) => Throw(TypeError)
    case JNull => Throw(ErrorException("Trying to access array offset on value of type null"))
    case JBool(_) => Throw(ErrorException("Trying to access array offset on value of type bool"))
    case JNum(_) => Throw(ErrorException("Trying to access array offset on value of type int"))
  }

  /** Reads the keys in order, stopping at the first read that throws (the
      evaluation order of a PHP array literal). */
  function ReadAll(j: Json, ks: seq<string>): (r: Eval<seq<Json>>)
    ensures r.Val? <==> forall i :: 0 <= i < |ks| ==> j.JObj? && ks[i] in j.fields
    ensures r.Val? ==> |r.value| == |ks| && forall i :: 0 <= i < |ks| ==> r.value[i] == j.fields[ks[i]]
    ensures r.Throw? ==> exists i :: 0 <= i < |ks| && Read(j, ks[i]) == Throw(r.thrown)
  {
    if ks == [] then Val([])
    else
      match Read(j, ks[0])
      case Throw(t) => Throw(t)
      case Val(v) =>
        match ReadAll(j, ks[1..])
        case Throw(t) => Throw(t)
        case Val(vs) => Val([v] + vs)
  }

  /** ReadAll throws what the first failing read throws. */
  lemma {:induction false} ReadAllFirstFailure(j: Json, ks: seq<string>, i: nat)
    requires i < |ks| && Read(j, ks[i]).Throw?
    requires forall m :: 0 <= m < i ==> Read(j, ks[m]).Val?
    ensures ReadAll(j, ks) == Throw(Read(j, ks[i]).thrown)
    decreases i
  {
    if i > 0 {
      ReadAllFirstFailure(j, ks[1..], i - 1);
    }
  }

  /** A decoded value used as an array offset: null reads as "", booleans and
      numbers as integer keys; a list or object is an illegal offset. */
  function ToOffset(key: Json): Option<Seg> {
    match key
    case JNull => Some(Name(""))
    case JStr(s) => Some(Name(s))
    case JNum(n) => Some(Index(n))
    case JBool(b) => Some(Index(if b then 1 else 0))
    case _ => None
  }

  /** A decoded value converted to a string, as `"...{$x}..."` and `.` do:
      null and false give "", true gives "1", a number its decimal form. An
      array is a warning, so an ErrorException. */
  function Interpolate(j: Json): (r: Eval<string>)
    ensures r.Throw? <==> j.JArr? || j.JObj?
    ensures r.Throw? ==> r.thrown == ErrorException("Array to string conversion")
    ensures j.JStr? ==> r == Val(j.s)
    ensures j.JNull? ==> r == Val("")
    ensures j.JNum? ==> r == Val(IntToString(j.n))
    ensures j.JBool? ==> r == Val(if j.b then "1" else "")
  {
    match j
    case JNull => Val("")
    case JBool(b) => Val(if b then "1" else "")
    case JNum(n) => Val(IntToString(n))
    case JStr(s) => Val(s)
    case _ => Throw(ErrorException("Array to string conversion"))
  }

  /** The key a decoded value becomes as the offset of an array write
      `$a[$x] = ...`, or None for an illegal (list or object) offset. */
  function ArrayKey(j: Json): Option<string> {
    match ToOffset(j)
    case Some(seg) => Some(OffsetKey(seg))
    case None => None
  }

  /** The key of an array write is the value's string conversion, except
      for false, which is key 0 but converts to "". */
  lemma ArrayKeyIsInterpolation(j: Json)
    ensures ArrayKey(j).None? <==> Interpolate(j).Throw?
    ensures ArrayKey(j).Some? && j != JBool(false) ==> Interpolate(j) == Val(ArrayKey(j).value)
    ensures j == JBool(false) ==> ArrayKey(j) == Some("0") && Interpolate(j) == Val("")
  {
  }

  /** `$container[$key]` inside `isset`/`??` with a computed key. A missing
      container reads as absent; a list or object offset on an array or a
      string throws; a null offset on a string reads position 0. */
  function DimBy(container: Option<Json>, key: Json): (r: Eval<Option<Json>>)
    ensures r.Throw? <==> container.Some? && (container.value.JObj? || container.value.JArr? || container.value.JStr?)
                          && ToOffset(key).None?
    ensures r.Throw? ==> r.thrown == TypeError
    ensures container.Some? && ToOffset(key).Some? && !(container.value.JStr? && key.JNull?)
            ==> r == Val(Dim(container.value, ToOffset(key).value))
    ensures container.Some? && container.value.JStr? && key.JNull? ==> r == Val(Dim(container.value, Index(0)))
    ensures container.None? ==> r == Val(None)
  {
    match container
    case None => Val(None)
    case Some(c) =>
      if c.JStr? && key.JNull? then Val(Dim(c, Index(0)))
      else
        match ToOffset(key)
        case Some(seg) => Val(Dim(c, seg))
        case None => if c.JObj? || c.JArr? || c.JStr? then Throw(TypeError) else Val(None)
  }

  /** `array_keys($x)`: the member names in order, or the positions of a list;
      a non-array argument is a TypeError. Integer keys are rendered as
      their decimal strings. */
  function ArrayKeys(j: Json): (r: Eval<seq<string>>)
    ensures r.Val? <==> j.JObj? || j.JArr?
    ensures j.JObj? ==> r == Val(j.keys)
    ensures j.JArr? ==> r.Val? && |r.value| == |j.items| && forall i :: 0 <= i < |j.items| ==> r.value[i] == IntToString(i)
    ensures r.Throw? ==> r.thrown == TypeError
  {
    match j
    case JObj(keys, _) => Val(keys)
    case JArr(items) => Val(seq(|items|, i => IntToString(i)))
    case _ => Throw(TypeError)
  }

  // ---------------------------------------------------------------------
  // Case-insensitive token search, as the version filters' regexes do it

  function LowerChar(c: char): char {
    if 'A' <= c <= 'Z' then (c as int + 32) as char else c
  }

  function Lower(s: string): (r: string)
    ensures |r| == |s|
    ensures forall i :: 0 <= i < |s| ==> r[i] == LowerChar(s[i])
  {
    seq(|s|, i requires 0 <= i < |s| => LowerChar(s[i]))
  }

  /** `t` occurs in `s` at position `i`, ignoring ASCII case. */
  predicate MatchesAt(s: string, t: string, i: int) {
    0 <= i && i + |t| <= |s| && Lower(s[i..i + |t|]) == t
  }

  /** `preg_match('/t/i', s)` for a lower-case literal token `t`, scanning
      left to right. */
  function ContainsCI(s: string, t: string): bool
    decreases |s|
  {
    MatchesAt(s, t, 0) || (|s| > 0 && ContainsCI(s[1..], t))
  }

  lemma {:induction false} ContainsCIIffMatch(s: string, t: string)
    ensures ContainsCI(s, t) <==> exists i :: MatchesAt(s, t, i)
    decreases |s|
  {
    if |s| > 0 {
      ContainsCIIffMatch(s[1..], t);
      if ContainsCI(s[1..], t) {
        var i :| MatchesAt(s[1..], t, i);
        assert s[1..][i..i + |t|] == s[i + 1..i + 1 + |t|];
        assert MatchesAt(s, t, i + 1);
      }
      if i :| MatchesAt(s, t, i) {
        if i > 0 {
          assert s[1..][i - 1..i - 1 + |t|] == s[i..i + |t|];
          assert MatchesAt(s[1..], t, i - 1);
        }
      }
    } else {
      if i :| MatchesAt(s, t, i) {
        assert i == 0;
      }
    }
  }

  /** A match of a token is also a match of each of its prefixes. */
  lemma ContainsPrefixToken(s: string, t: string, p: string)
    requires p <= t
    requires ContainsCI(s, t)
    ensures ContainsCI(s, p)
  {
    ContainsCIIffMatch(s, t);
    ContainsCIIffMatch(s, p);
    var i :| MatchesAt(s, t, i);
    assert Lower(s[i..i + |p|]) == Lower(s[i..i + |t|])[..|p|];
    assert MatchesAt(s, p, i);
  }

  // ---------------------------------------------------------------------
  // Ordered PHP arrays with string keys

  /** A PHP array with string keys: insertion order and values. */
  datatype Assoc<V> = Assoc(keys: seq<string>, vals: map<string, V>)

  /** Keys listed once each, and exactly the keys holding values. */
  ghost predicate WellFormed<V>(a: Assoc<V>) {
    && (forall i, j :: 0 <= i < j < |a.keys| ==> a.keys[i] != a.keys[j])
    && (forall k :: k in a.vals <==> k in a.keys)
  }

  function EmptyAssoc<V>(): (r: Assoc<V>)
    ensures WellFormed(r) && r.vals == map[]
  {
    Assoc([], map[])
  }

  /** `$a[$k] = $v`: a new key goes last, an existing key keeps its place
      and takes the new value. */
  function Assign<V>(a: Assoc<V>, k: string, v: V): (r: Assoc<V>)
    requires WellFormed(a)
    ensures WellFormed(r)
    ensures r.vals.Keys == a.vals.Keys + {k} && r.vals[k] == v
    ensures forall k' :: k' in a.vals && k' != k ==> r.vals[k'] == a.vals[k']
    ensures |r.keys| == |a.keys| + (if k in a.vals then 0 else 1) && r.keys[..|a.keys|] == a.keys
  {
    if k in a.vals then Assoc(a.keys, a.vals[k := v])
    else Assoc(a.keys + [k], a.vals[k := v])
  }
}
