/**
 * The registry of health checks: what a check is, how a create request is
 * validated and completed with its defaults, and the insertion order in
 * which a JavaScript `Map` keeps its keys.
 */
module Registry {
  import opened Wrappers

  /** A health-check id (`hc_<time>_<random>` in the source; any fresh string here). */
  type Id = string

  /** A registered check, the value stored in `healthChecks`. */
  datatype Check = Check(url: string, interval: int, name: string, createdAt: string)

  /** The error replies of the handlers. */
  datatype Error = MissingUrl | InvalidUrl | InvalidInterval | NotFound {

    /** The HTTP status the handler answers with. */
    function HttpStatus(): int {
      if NotFound? then 404 else 400
    }

    /** The `error` text of the reply body. */
    function Message(): string {
      match this
      case MissingUrl => "URL is required"
      case InvalidUrl => "Invalid URL format"
      case InvalidInterval => "Interval must be between 5000ms (5s) and 3600000ms (1h)"
      case NotFound => "Health check not found"
    }
  }

  const DefaultInterval: int := 60000
  const MinInterval: int := 5000
  const MaxInterval: int := 3600000

  /** The `interval` field of a create request: omitted (the destructuring
      default applies), or supplied and then read by `parseInt`, whose
      result is `None` for NaN. */
  datatype IntervalField = Omitted | Supplied(parsed: Option<int>)

  /** The body of a create request; `None` is an absent or null field. */
  datatype CreateRequest = CreateRequest(url: Option<string>, interval: IntervalField, name: Option<string>)

  /** JavaScript truthiness of an optional string: present and not empty. */
  predicate Truthy(s: Option<string>) {
    s.Some? && s.value != ""
  }

  /** `parseInt(interval)` after the default of 60000 has been applied. */
  function RequestedInterval(f: IntervalField): Option<int> {
    match f
    case Omitted => Some(DefaultInterval)
    case Supplied(parsed) => parsed
  }

  /** Not NaN and within [5000, 3600000], both ends included. */
  predicate IntervalInRange(i: Option<int>) {
    i.Some? && MinInterval <= i.value <= MaxInterval
  }

  /**
   * The create handler's validation and the check it builds. The URL parser
   * (`new URL(url)` succeeding) is the parameter `urlParses`; `now` is the
   * creation timestamp. The checks run in a fixed order: a missing url, then
   * a malformed one, then a bad interval.
   */
  function NewCheck(req: CreateRequest, urlParses: string -> bool, now: string): (r: Result<Check, Error>)
    ensures r.Success? <==>
      Truthy(req.url) && urlParses(req.url.value) && IntervalInRange(RequestedInterval(req.interval))
    ensures r == Failure(MissingUrl) <==> !Truthy(req.url)
    ensures r == Failure(InvalidUrl) <==> Truthy(req.url) && !urlParses(req.url.value)
    ensures r == Failure(InvalidInterval) <==>
      Truthy(req.url) && urlParses(req.url.value) && !IntervalInRange(RequestedInterval(req.interval))
    ensures r.Success? ==>
      && r.value.url == req.url.value
      && MinInterval <= r.value.interval <= MaxInterval
      && RequestedInterval(req.interval) == Some(r.value.interval)
      && r.value.name == (if Truthy(req.name) then req.name.value else req.url.value)
      && r.value.createdAt == now
  {
    if !Truthy(req.url) then Failure(MissingUrl)
    else if !urlParses(req.url.value) then Failure(InvalidUrl)
    else
      var interval := RequestedInterval(req.interval);
      if !IntervalInRange(interval) then Failure(InvalidInterval)
      else
        var name := if Truthy(req.name) then req.name.value else req.url.value;
        Success(Check(req.url.value, interval.value, name, now))
  }

  /** The interval bounds are inclusive, an omitted interval is 60000 and an
      unparsable one is rejected; an omitted name becomes the url. */
  lemma IntervalBoundaries(url: string, urlParses: string -> bool, now: string)
    requires url != "" && urlParses(url)
    ensures NewCheck(CreateRequest(Some(url), Supplied(Some(4999)), None), urlParses, now) == Failure(InvalidInterval)
    ensures NewCheck(CreateRequest(Some(url), Supplied(Some(5000)), None), urlParses, now).Success?
    ensures NewCheck(CreateRequest(Some(url), Supplied(Some(3600000)), None), urlParses, now).Success?
    ensures NewCheck(CreateRequest(Some(url), Supplied(Some(3600001)), None), urlParses, now) == Failure(InvalidInterval)
    ensures NewCheck(CreateRequest(Some(url), Supplied(None), None), urlParses, now) == Failure(InvalidInterval)
    ensures NewCheck(CreateRequest(Some(url), Omitted, None), urlParses, now) == Success(Check(url, 60000, url, now))
  {
  }

  /** A missing url is reported before anything else is looked at. */
  lemma MissingUrlFirst(req: CreateRequest, urlParses: string -> bool, now: string)
    requires req.url == None || req.url == Some("")
    ensures NewCheck(req, urlParses, now) == Failure(MissingUrl)
  {
  }

  /** No element occurs twice. */
  predicate Distinct<T(==)>(s: seq<T>) {
    forall i, j :: 0 <= i < j < |s| ==> s[i] != s[j]
  }

  /** `s` with `x` taken out, the other elements keeping their order:
      the key order of a `Map` after `delete(x)`. */
  function Remove<T(==,!new)>(s: seq<T>, x: T): (r: seq<T>)
    ensures forall y :: y in r <==> y in s && y != x
    ensures |r| <= |s|
  {
    if s == [] then []
    else if s[0] == x then Remove(s[1..], x)
    else [s[0]] + Remove(s[1..], x)
  }

  /** Deleting a key from an order without repetitions leaves none. */
  lemma {:induction false} RemoveDistinct<T(!new)>(s: seq<T>, x: T)
    requires Distinct(s)
    ensures Distinct(Remove(s, x))
  {
    if s != [] {
      DistinctTail(s);
      RemoveDistinct(s[1..], x);
      if s[0] != x {
        var rest := Remove(s[1..], x);
        var r := [s[0]] + rest;
        forall i, j | 0 <= i < j < |r| ensures r[i] != r[j] {
          assert r[j] == rest[j - 1];
          if i > 0 {
            assert r[i] == rest[i - 1];
          }
        }
      }
    }
  }

  /** The tail of a sequence without repetitions has none either and does
      not contain the head. */
  lemma DistinctTail<T>(s: seq<T>)
    requires s != [] && Distinct(s)
    ensures Distinct(s[1..]) && s[0] !in s[1..]
  {
    var rest := s[1..];
    forall i, j | 0 <= i < j < |rest| ensures rest[i] != rest[j] {
      assert rest[i] == s[i + 1] && rest[j] == s[j + 1];
    }
    forall k | 0 <= k < |rest| ensures rest[k] != s[0] {
      assert rest[k] == s[k + 1];
    }
  }

  /** Deleting a key that is not there changes nothing. */
  lemma {:induction false} RemoveAbsent<T(!new)>(s: seq<T>, x: T)
    requires x !in s
    ensures Remove(s, x) == s
  {
    if s != [] {
      RemoveAbsent(s[1..], x);
    }
  }

  /** Deleting a key that occurs once drops just that key from the order. */
  lemma {:induction false} RemoveKeepsOrder<T(!new)>(a: seq<T>, x: T, b: seq<T>)
    requires x !in a && x !in b
    ensures Remove(a + [x] + b, x) == a + b
  {
    if a == [] {
      assert a + [x] + b == [x] + b;
      assert ([x] + b)[1..] == b;
      RemoveAbsent(b, x);
    } else {
      var s := a + [x] + b;
      assert s[0] == a[0] != x;
      assert s[1..] == a[1..] + [x] + b;
      RemoveKeepsOrder(a[1..], x, b);
      assert [a[0]] + (a[1..] + b) == a + b;
    }
  }

  /** Appending a new element keeps a sequence free of repetitions. */
  lemma DistinctAppend<T>(s: seq<T>, x: T)
    requires Distinct(s) && x !in s
    ensures Distinct(s + [x])
  {
    var t := s + [x];
    forall i, j | 0 <= i < j < |t| ensures t[i] != t[j] {
      if j < |s| {
        assert t[i] == s[i] && t[j] == s[j];
      } else {
        assert t[i] == s[i] && t[j] == x;
      }
    }
  }

  /** A sequence without repetitions has as many elements as its set. */
  lemma {:induction false} DistinctCardinality<T>(s: seq<T>)
    requires Distinct(s)
    ensures |set x | x in s| == |s|
  {
    if s != [] {
      var rest := s[1..];
      DistinctTail(s);
      DistinctCardinality(rest);
      assert (set x | x in s) == {s[0]} + (set x | x in rest) by {
        assert s == [s[0]] + rest;
      }
    }
  }
}
