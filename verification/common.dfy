/**
 Small shared vocabulary of the model: optional values, HTTP errors as the
 service reports them, and two generic searches over sequences (first match
 and order-preserving filter) that stand for the "first element that ..." and
 "all elements that ..." queries of the HTML parser.
 */
module Common {

  datatype Option<T> = None | Some(value: T)

  /** Python truthiness of an optional string: present and non-empty. */
  predicate Truthy(o: Option<string>)
  {
    o.Some? && o.value != ""
  }

  /** An error the service turns into an HTTP response with `status` and `detail`. */
  datatype HttpError = HttpError(status: nat, detail: string)

  datatype Result<T> = Ok(value: T) | Err(error: HttpError)

  /** An upstream HTTP response, reduced to what the service looks at. */
  datatype Response = Response(status: nat, url: string, body: string)

  /** `Response.ok` of the requests library: false exactly for 4xx and 5xx statuses. */
  predicate IsOk(status: nat)
  {
    !(400 <= status < 600)
  }

  /** Index of the first element of `s` satisfying `p`, if any. */
  function FirstMatch<T>(s: seq<T>, p: T -> bool): (r: Option<nat>)
    ensures r.Some? ==> r.value < |s| && p(s[r.value])
    ensures r.Some? ==> forall j :: 0 <= j < r.value ==> !p(s[j])
    ensures r.None? ==> forall j :: 0 <= j < |s| ==> !p(s[j])
  {
    if |s| == 0 then None
    else if p(s[0]) then Some(0)
    else match FirstMatch(s[1..], p)
      case None => None
      case Some(i) => Some(i + 1)
  }

  /** Once `a` holds a match, nothing appended after it changes the first match. */
  lemma {:induction false} FirstMatchAppend<T>(a: seq<T>, b: seq<T>, p: T -> bool)
    requires FirstMatch(a, p).Some?
    ensures FirstMatch(a + b, p) == FirstMatch(a, p)
  {
    var i := FirstMatch(a, p).value;
    assert (a + b)[i] == a[i];
    match FirstMatch(a + b, p)
    case None =>
    case Some(k) =>
      if k < i {
        assert (a + b)[k] == a[k];
      }
  }

  /** The elements of `s` satisfying `p`, in their original order. */
  function Filter<T>(s: seq<T>, p: T -> bool): (r: seq<T>)
    ensures |r| <= |s|
    ensures forall k :: 0 <= k < |r| ==> r[k] in s && p(r[k])
    ensures forall k :: 0 <= k < |s| && p(s[k]) ==> s[k] in r
  {
    if |s| == 0 then []
    else (if p(s[0]) then [s[0]] else []) + Filter(s[1..], p)
  }

  /** Filtering distributes over concatenation, so it keeps relative order. */
  lemma {:induction false} FilterAppend<T>(a: seq<T>, b: seq<T>, p: T -> bool)
    ensures Filter(a + b, p) == Filter(a, p) + Filter(b, p)
  {
    if |a| == 0 {
      assert a + b == b;
    } else {
      assert (a + b)[0] == a[0];
      assert (a + b)[1..] == a[1..] + b;
      FilterAppend(a[1..], b, p);
    }
  }

  /** Filtering a one-element sequence keeps it exactly when it satisfies `p`. */
  lemma FilterSingleton<T>(x: T, p: T -> bool)
    ensures Filter([x], p) == if p(x) then [x] else []
  {
  }
}
