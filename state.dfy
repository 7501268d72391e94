/**
 * poorwsgi/state.py: the DECLINED sentinel, the HTTP status constants, the
 * HTTP method bit flags, the `methods` table and `sorted_methods`.
 */
module State {

  /** Handler return value meaning "no response was produced". */
  const DECLINED: int := 0

  // Informational
  const HTTP_CONTINUE: int := 100
  const HTTP_SWITCHING_PROTOCOLS: int := 101
  const HTTP_PROCESSING: int := 102

  // Success
  const HTTP_OK: int := 200
  const HTTP_CREATED: int := 201
  const HTTP_ACCEPTED: int := 202
  const HTTP_NON_AUTHORITATIVE: int := 203
  const HTTP_NO_CONTENT: int := 204
  const HTTP_RESET_CONTENT: int := 205
  const HTTP_PARTIAL_CONTENT: int := 206
  const HTTP_MULTI_STATUS: int := 207
  const HTTP_ALREADY_REPORTED: int := 208
  const HTTP_IM_USED: int := 226

  // Redirection
  const HTTP_MULTIPLE_CHOICES: int := 300
  const HTTP_MOVED_PERMANENTLY: int := 301
  const HTTP_MOVED_TEMPORARILY: int := 302
  const HTTP_SEE_OTHER: int := 303
  const HTTP_NOT_MODIFIED: int := 304
  const HTTP_USE_PROXY: int := 305
  const HTTP_TEMPORARY_REDIRECT: int := 307
  const HTTP_PERMANENT_REDIRECT: int := 308

  // Client Error
  const HTTP_BAD_REQUEST: int := 400
  const HTTP_UNAUTHORIZED: int := 401
  const HTTP_PAYMENT_REQUIRED: int := 402
  const HTTP_FORBIDDEN: int := 403
  const HTTP_NOT_FOUND: int := 404
  const HTTP_METHOD_NOT_ALLOWED: int := 405
  const HTTP_NOT_ACCEPTABLE: int := 406
  const HTTP_PROXY_AUTHENTICATION_REQUIRED: int := 407
  const HTTP_REQUEST_TIME_OUT: int := 408
  const HTTP_CONFLICT: int := 409
  const HTTP_GONE: int := 410
  const HTTP_LENGTH_REQUIRED: int := 411
  const HTTP_PRECONDITION_FAILED: int := 412
  const HTTP_REQUEST_ENTITY_TOO_LARGE: int := 413
  const HTTP_REQUEST_URI_TOO_LARGE: int := 414
  const HTTP_UNSUPPORTED_MEDIA_TYPE: int := 415
  const HTTP_RANGE_NOT_SATISFIABLE: int := 416
  const HTTP_EXPECTATION_FAILED: int := 417
  const HTTP_I_AM_A_TEAPOT: int := 418
  const HTTP_UNPROCESSABLE_ENTITY: int := 422
  const HTTP_LOCKED: int := 423
  const HTTP_FAILED_DEPENDENCY: int := 424
  const HTTP_UPGRADE_REQUIRED: int := 426
  const HTTP_PRECONDITION_REQUIRED: int := 428
  const HTTP_TOO_MANY_REQUESTS: int := 429
  const HTTP_REQUEST_HEADER_FIELDS_TOO_LARGE: int := 431
  const HTTP_CONNECTION_CLOSED_WITHOUT_RESPONSE: int := 444
  const HTTP_UNAVAILABLE_FOR_LEGAL_REASONS: int := 451
  const HTTP_CLIENT_CLOSED_REQUEST: int := 499

  // Server Error
  const HTTP_INTERNAL_SERVER_ERROR: int := 500
  const HTTP_NOT_IMPLEMENTED: int := 501
  const HTTP_BAD_GATEWAY: int := 502
  const HTTP_SERVICE_UNAVAILABLE: int := 503
  const HTTP_GATEWAY_TIME_OUT: int := 504
  const HTTP_VERSION_NOT_SUPPORTED: int := 505
  const HTTP_VARIANT_ALSO_VARIES: int := 506
  const HTTP_INSUFFICIENT_STORAGE: int := 507
  const HTTP_LOOP_DETECTED: int := 508
  const HTTP_NOT_EXTENDED: int := 510
  const HTTP_NETWORK_AUTHENTICATION_REQUIRED: int := 511
  const HTTP_NETWORK_CONNECT_TIMEOUT_ERROR: int := 599

  /** Whether `c` is the value of one of the `HTTP_*` constants. */
  predicate IsHttpConstant(c: int) {
    || c == HTTP_CONTINUE
    || c == HTTP_SWITCHING_PROTOCOLS
    || c == HTTP_PROCESSING
    || c == HTTP_OK
    || c == HTTP_CREATED
    || c == HTTP_ACCEPTED
    || c == HTTP_NON_AUTHORITATIVE
    || c == HTTP_NO_CONTENT
    || c == HTTP_RESET_CONTENT
    || c == HTTP_PARTIAL_CONTENT
    || c == HTTP_MULTI_STATUS
    || c == HTTP_ALREADY_REPORTED
    || c == HTTP_IM_USED
    || c == HTTP_MULTIPLE_CHOICES
    || c == HTTP_MOVED_PERMANENTLY
    || c == HTTP_MOVED_TEMPORARILY
    || c == HTTP_SEE_OTHER
    || c == HTTP_NOT_MODIFIED
    || c == HTTP_USE_PROXY
    || c == HTTP_TEMPORARY_REDIRECT
    || c == HTTP_PERMANENT_REDIRECT
    || c == HTTP_BAD_REQUEST
    || c == HTTP_UNAUTHORIZED
    || c == HTTP_PAYMENT_REQUIRED
    || c == HTTP_FORBIDDEN
    || c == HTTP_NOT_FOUND
    || c == HTTP_METHOD_NOT_ALLOWED
    || c == HTTP_NOT_ACCEPTABLE
    || c == HTTP_PROXY_AUTHENTICATION_REQUIRED
    || c == HTTP_REQUEST_TIME_OUT
    || c == HTTP_CONFLICT
    || c == HTTP_GONE
    || c == HTTP_LENGTH_REQUIRED
    || c == HTTP_PRECONDITION_FAILED
    || c == HTTP_REQUEST_ENTITY_TOO_LARGE
    || c == HTTP_REQUEST_URI_TOO_LARGE
    || c == HTTP_UNSUPPORTED_MEDIA_TYPE
    || c == HTTP_RANGE_NOT_SATISFIABLE
    || c == HTTP_EXPECTATION_FAILED
    || c == HTTP_I_AM_A_TEAPOT
    || c == HTTP_UNPROCESSABLE_ENTITY
    || c == HTTP_LOCKED
    || c == HTTP_FAILED_DEPENDENCY
    || c == HTTP_UPGRADE_REQUIRED
    || c == HTTP_PRECONDITION_REQUIRED
    || c == HTTP_TOO_MANY_REQUESTS
    || c == HTTP_REQUEST_HEADER_FIELDS_TOO_LARGE
    || c == HTTP_CONNECTION_CLOSED_WITHOUT_RESPONSE
    || c == HTTP_UNAVAILABLE_FOR_LEGAL_REASONS
    || c == HTTP_CLIENT_CLOSED_REQUEST
    || c == HTTP_INTERNAL_SERVER_ERROR
    || c == HTTP_NOT_IMPLEMENTED
    || c == HTTP_BAD_GATEWAY
    || c == HTTP_SERVICE_UNAVAILABLE
    || c == HTTP_GATEWAY_TIME_OUT
    || c == HTTP_VERSION_NOT_SUPPORTED
    || c == HTTP_VARIANT_ALSO_VARIES
    || c == HTTP_INSUFFICIENT_STORAGE
    || c == HTTP_LOOP_DETECTED
    || c == HTTP_NOT_EXTENDED
    || c == HTTP_NETWORK_AUTHENTICATION_REQUIRED
    || c == HTTP_NETWORK_CONNECT_TIMEOUT_ERROR
  }

  /** DECLINED can never be mistaken for a status: every `HTTP_*` constant is a
      three-digit code, and the teapot code is 418. */
  lemma DeclinedIsNoStatus()
    ensures DECLINED == 0 && !IsHttpConstant(DECLINED)
    ensures forall c :: IsHttpConstant(c) ==> 100 <= c <= 599
    ensures HTTP_I_AM_A_TEAPOT == 418 && IsHttpConstant(HTTP_I_AM_A_TEAPOT)
  {
  }

  // ------------------------------------------------------- method flags

  const METHOD_HEAD: nat := 1
  const METHOD_GET: nat := 2
  const METHOD_POST: nat := 4
  const METHOD_PUT: nat := 8
  const METHOD_DELETE: nat := 16
  const METHOD_TRACE: nat := 32
  const METHOD_OPTIONS: nat := 64
  const METHOD_CONNECT: nat := 128
  const METHOD_PATCH: nat := 256

  function Pow2(k: nat): (p: nat)
    ensures p >= 1
  {
    if k == 0 then 1 else 2 * Pow2(k - 1)
  }

  /** Python's `|` on non-negative integers, bit by bit from the least significant. */
  function BitOr(a: nat, b: nat): nat
    decreases a + b
  {
    if a == 0 then b
    else if b == 0 then a
    else 2 * BitOr(a / 2, b / 2) + (if a % 2 == 1 || b % 2 == 1 then 1 else 0)
  }

  /** `a | b` for the flags in `flags`, folded from the left. */
  function BitOrAll(flags: seq<nat>): nat {
    if flags == [] then 0 else BitOr(BitOrAll(flags[..|flags| - 1]), flags[|flags| - 1])
  }

  /** Or-ing in a power of two above every bit of `a` adds it. */
  lemma {:induction false} BitOrHighPower(a: nat, k: nat)
    requires a < Pow2(k)
    ensures BitOr(a, Pow2(k)) == a + Pow2(k)
  {
    if a != 0 {
      assert k > 0;
      BitOrHighPower(a / 2, k - 1);
    }
  }

  /** The nine method flags, in `methods` order. */
  const METHOD_FLAGS: seq<nat> := [METHOD_HEAD, METHOD_GET, METHOD_POST, METHOD_PUT,
    METHOD_DELETE, METHOD_TRACE, METHOD_OPTIONS, METHOD_CONNECT, METHOD_PATCH]

  /** Each flag is its own bit: flag i is 2^i, so they are distinct powers of two from 1 to 256. */
  lemma MethodFlagsArePowersOfTwo()
    ensures |METHOD_FLAGS| == 9
    ensures forall i :: 0 <= i < 9 ==> METHOD_FLAGS[i] == Pow2(i)
    ensures METHOD_FLAGS[0] == 1 && METHOD_FLAGS[8] == 256
    ensures forall i, j :: 0 <= i < j < 9 ==> METHOD_FLAGS[i] < METHOD_FLAGS[j]
  {
    assert Pow2(1) == 2 && Pow2(2) == 4 && Pow2(3) == 8 && Pow2(4) == 16;
    assert Pow2(5) == 32 && Pow2(6) == 64 && Pow2(7) == 128 && Pow2(8) == 256;
  }

  /** Or-ing the first n powers of two sets the n low bits. */
  lemma {:induction false} BitOrAllLowBits(flags: seq<nat>)
    requires forall i :: 0 <= i < |flags| ==> flags[i] == Pow2(i)
    ensures BitOrAll(flags) == Pow2(|flags|) - 1
  {
    if flags != [] {
      var n := |flags| - 1;
      BitOrAllLowBits(flags[..n]);
      BitOrHighPower(Pow2(n) - 1, n);
    }
  }

  /** Short constant for METHOD_HEAD | METHOD_GET | METHOD_POST. */
  const METHOD_GET_POST: nat := BitOr(BitOr(METHOD_HEAD, METHOD_GET), METHOD_POST)

  /** Short constant for every method type, METHOD_HEAD | ... | METHOD_PATCH. */
  const METHOD_ALL: nat := 511

  lemma MethodGetPostValue()
    ensures METHOD_GET_POST == 7
    ensures METHOD_GET_POST == BitOrAll(METHOD_FLAGS[..3])
  {
    BitOrHighPower(METHOD_HEAD, 1);
    BitOrHighPower(3, 2);
    MethodFlagsArePowersOfTwo();
    BitOrAllLowBits(METHOD_FLAGS[..3]);
  }

  /** The literal 511 is exactly the or of all nine flags. */
  lemma MethodAllIsEveryFlag()
    ensures METHOD_ALL == BitOrAll(METHOD_FLAGS)
  {
    MethodFlagsArePowersOfTwo();
    BitOrAllLowBits(METHOD_FLAGS);
    assert Pow2(9) == 512;
  }

  // ------------------------------------------------------ methods table

  type MethodItem = (string, nat)

  /** `methods.items()`: the dict literal's pairs in insertion order. */
  const METHOD_ITEMS: seq<MethodItem> := [
    ("HEAD", METHOD_HEAD), ("GET", METHOD_GET), ("POST", METHOD_POST),
    ("PUT", METHOD_PUT), ("DELETE", METHOD_DELETE), ("TRACE", METHOD_TRACE),
    ("OPTIONS", METHOD_OPTIONS), ("CONNECT", METHOD_CONNECT), ("PATCH", METHOD_PATCH)]

  /** `methods`: method name to flag. */
  const METHODS: map<string, nat> := map[
    "HEAD" := METHOD_HEAD, "GET" := METHOD_GET, "POST" := METHOD_POST,
    "PUT" := METHOD_PUT, "DELETE" := METHOD_DELETE, "TRACE" := METHOD_TRACE,
    "OPTIONS" := METHOD_OPTIONS, "CONNECT" := METHOD_CONNECT, "PATCH" := METHOD_PATCH]

  /** `methods` holds exactly the nine method names. */
  lemma MethodsKeys()
    ensures METHODS.Keys == {"HEAD", "GET", "POST", "PUT", "DELETE", "TRACE", "OPTIONS", "CONNECT", "PATCH"}
  {
  }

  /** No two method names share a flag. */
  lemma MethodsInjective()
    ensures forall m, n :: m in METHODS && n in METHODS && m != n ==> METHODS[m] != METHODS[n]
  {
  }

  /** The items of `methods`, in order, are the pairs of METHOD_ITEMS, and their flags are METHOD_FLAGS. */
  lemma MethodsItems()
    ensures forall i :: 0 <= i < |METHOD_ITEMS| ==>
      METHOD_ITEMS[i].0 in METHODS && METHODS[METHOD_ITEMS[i].0] == METHOD_ITEMS[i].1 == METHOD_FLAGS[i]
    ensures forall m :: m in METHODS ==> (m, METHODS[m]) in METHOD_ITEMS
  {
  }

  // ------------------------------------------------------ sorted_methods

  predicate SortedByFlag(s: seq<MethodItem>) {
    forall i, j :: 0 <= i < j < |s| ==> s[i].1 <= s[j].1
  }

  /** Inserts `x` before the first element whose flag is not smaller (keeps sort stable). */
  function InsertByFlag(x: MethodItem, s: seq<MethodItem>): seq<MethodItem> {
    if s == [] || x.1 <= s[0].1 then [x] + s
    else [s[0]] + InsertByFlag(x, s[1..])
  }

  /** Inserting adds exactly `x`. */
  lemma {:induction false} InsertByFlagAdds(x: MethodItem, s: seq<MethodItem>)
    ensures multiset(InsertByFlag(x, s)) == multiset(s) + multiset{x}
    ensures |InsertByFlag(x, s)| == |s| + 1
  {
    if s != [] && x.1 > s[0].1 {
      InsertByFlagAdds(x, s[1..]);
      assert s == [s[0]] + s[1..];
    }
  }

  /** Inserting into a sorted list keeps it sorted; the head of the result is `x` or
      the old head. */
  lemma {:induction false} InsertByFlagSorted(x: MethodItem, s: seq<MethodItem>)
    requires SortedByFlag(s)
    ensures SortedByFlag(InsertByFlag(x, s))
    ensures InsertByFlag(x, s)[0] == x || (s != [] && InsertByFlag(x, s)[0] == s[0])
  {
    if s != [] && x.1 > s[0].1 {
      InsertByFlagSorted(x, s[1..]);
    }
  }

  /** `sorted(items, key=itemgetter(1))`: a stable insertion sort on the flag. */
  function SortByFlag(items: seq<MethodItem>): seq<MethodItem> {
    if items == [] then []
    else InsertByFlag(items[0], SortByFlag(items[1..]))
  }

  /** The sort returns its input in ascending flag order: sorted and a permutation. */
  lemma {:induction false} SortByFlagSorted(items: seq<MethodItem>)
    ensures SortedByFlag(SortByFlag(items))
    ensures multiset(SortByFlag(items)) == multiset(items)
  {
    if items != [] {
      SortByFlagSorted(items[1..]);
      InsertByFlagSorted(items[0], SortByFlag(items[1..]));
      InsertByFlagAdds(items[0], SortByFlag(items[1..]));
      assert items == [items[0]] + items[1..];
    }
  }

  /** Sorting an already sorted list leaves it as it is. */
  lemma {:induction false} SortSortedIsIdentity(items: seq<MethodItem>)
    requires SortedByFlag(items)
    ensures SortByFlag(items) == items
  {
    if items != [] {
      assert SortedByFlag(items[1..]);
      SortSortedIsIdentity(items[1..]);
    }
  }

  /** `sorted_methods` */
  const SORTED_METHODS: seq<MethodItem> := SortByFlag(METHOD_ITEMS)

  /** `sorted_methods` is in strictly ascending flag order. */
  lemma SortedMethodsAscending()
    ensures forall i, j :: 0 <= i < j < |SORTED_METHODS| ==> SORTED_METHODS[i].1 < SORTED_METHODS[j].1
  {
    SortedMethodsUnchanged();
    MethodItemsAscending();
  }

  /** `sorted_methods` has nine entries, HEAD first and PATCH last. */
  lemma SortedMethodsEnds()
    ensures |SORTED_METHODS| == 9
    ensures SORTED_METHODS[0] == ("HEAD", METHOD_HEAD) && SORTED_METHODS[8] == ("PATCH", METHOD_PATCH)
  {
    SortedMethodsUnchanged();
  }

  /** `sorted_methods` is a permutation of `methods.items()`. */
  lemma SortedMethodsPermutation()
    ensures multiset(SORTED_METHODS) == multiset(METHOD_ITEMS)
    ensures forall p :: p in SORTED_METHODS <==> p.0 in METHODS && METHODS[p.0] == p.1
  {
    SortedMethodsUnchanged();
    MethodsItems();
  }

  /** The dict literal already lists the methods by ascending flag, so sorting keeps its order. */
  lemma SortedMethodsUnchanged()
    ensures SORTED_METHODS == METHOD_ITEMS
  {
    MethodItemsAscending();
    SortSortedIsIdentity(METHOD_ITEMS);
  }

  lemma MethodItemsAscending()
    ensures forall i, j :: 0 <= i < j < |METHOD_ITEMS| ==> METHOD_ITEMS[i].1 < METHOD_ITEMS[j].1
  {
    MethodFlagsArePowersOfTwo();
    MethodsItems();
  }
}
