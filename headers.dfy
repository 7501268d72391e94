/**
 * The interface of poorwsgi's `Headers` container that the response layer uses:
 * an ordered list of (name, value) pairs, appended to by `add`/`add_header`,
 * read back by `items()`/`keys()`, and looked up case-insensitively by `get`.
 * poorwsgi/headers.py is not part of this model; only this interface is.
 */
module Headers {
  import opened Wrappers

  type Header = (string, string)

  /** ASCII lower-casing of one character; header names are ASCII tokens. */
  function LowerChar(c: char): char {
    if 'A' <= c <= 'Z' then (c as int + 32) as char else c
  }

  /** Header names match ignoring ASCII case: `a.lower() == b.lower()`. */
  predicate NameEq(a: string, b: string) {
    |a| == |b| && forall i :: 0 <= i < |a| ==> LowerChar(a[i]) == LowerChar(b[i])
  }

  /** `headers.keys()`: the stored names, in order, with their stored case. */
  function Keys(h: seq<Header>): (r: seq<string>)
    ensures |r| == |h|
    ensures forall i :: 0 <= i < |h| ==> r[i] == h[i].0
  {
    if h == [] then [] else [h[0].0] + Keys(h[1..])
  }

  /** `headers.get(name)`: the value of the first header whose name matches, ignoring case. */
  function Get(h: seq<Header>, name: string): Option<string> {
    if h == [] then None
    else if NameEq(h[0].0, name) then Some(h[0].1)
    else Get(h[1..], name)
  }

  /** `get` answers nothing exactly when no name matches, and otherwise the value of the
      first header whose name matches. */
  lemma {:induction false} GetFirstMatch(h: seq<Header>, name: string)
    ensures Get(h, name).None? <==> forall i :: 0 <= i < |h| ==> !NameEq(h[i].0, name)
    ensures Get(h, name).Some? ==>
              exists i :: 0 <= i < |h| && NameEq(h[i].0, name) && h[i].1 == Get(h, name).value
                          && forall j :: 0 <= j < i ==> !NameEq(h[j].0, name)
  {
    if h != [] && !NameEq(h[0].0, name) {
      GetFirstMatch(h[1..], name);
      assert forall i :: 1 <= i < |h| ==> h[1..][i - 1] == h[i];
      if Get(h, name).Some? {
        var i :| 0 <= i < |h[1..]| && NameEq(h[1..][i].0, name) && h[1..][i].1 == Get(h, name).value
                 && forall j :: 0 <= j < i ==> !NameEq(h[1..][j].0, name);
        assert NameEq(h[i + 1].0, name) && h[i + 1].1 == Get(h, name).value;
        assert forall j :: 0 <= j < i + 1 ==> !NameEq(h[j].0, name) by {
          forall j | 0 <= j < i + 1 ensures !NameEq(h[j].0, name) {
            if j > 0 { assert h[j] == h[1..][j - 1]; }
          }
        }
      }
    } else if h != [] {
      assert NameEq(h[0].0, name);
    }
  }

  /** `name in headers` */
  predicate Contains(h: seq<Header>, name: string) {
    Get(h, name).Some?
  }

  /** Python truthiness of `headers.get(name)`: a header is there and its value is not empty. */
  predicate HasNonEmpty(h: seq<Header>, name: string) {
    Get(h, name).Some? && Get(h, name).value != ""
  }

  /** `headers.add(name, value)` / `headers.add_header(name, value)` without parameters. */
  function Add(h: seq<Header>, name: string, value: string): (r: seq<Header>)
    ensures |r| == |h| + 1 && r[..|h|] == h && r[|h|] == (name, value)
  {
    h + [(name, value)]
  }

  /** Appending headers never changes the answer of a name the front part already holds;
      otherwise the answer comes from the appended part. */
  lemma {:induction false} GetAppend(h: seq<Header>, t: seq<Header>, name: string)
    ensures Get(h + t, name) == if Get(h, name).Some? then Get(h, name) else Get(t, name)
  {
    if h == [] {
      assert h + t == t;
    } else {
      assert (h + t)[0] == h[0];
      assert (h + t)[1..] == h[1..] + t;
      GetAppend(h[1..], t, name);
    }
  }

  /** Adding a header whose name does not match leaves the lookup of `name` unchanged;
      adding one whose name matches makes `name` present. */
  lemma GetAfterAdd(h: seq<Header>, n: string, v: string, name: string)
    ensures !NameEq(n, name) ==> Get(Add(h, n, v), name) == Get(h, name)
    ensures NameEq(n, name) ==> Contains(Add(h, n, v), name)
    ensures NameEq(n, name) && !Contains(h, name) ==> Get(Add(h, n, v), name) == Some(v)
  {
    GetAppend(h, [(n, v)], name);
  }
}
