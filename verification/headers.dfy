/**
  HTTP header sets as Go's `http.Header`: a map from (already canonical)
  keys to lists of values.
*/
module Headers {

  type Header = map<string, seq<string>>

  const ContentType: string := "Content-Type"
  const ContentEncoding: string := "Content-Encoding"
  const ContentLength: string := "Content-Length"

  /** The three header names this model uses are distinct keys. */
  lemma NamesDistinct()
    ensures ContentType != ContentEncoding && ContentType != ContentLength && ContentEncoding != ContentLength
  {
    assert |ContentType| == 12 && |ContentLength| == 14 && |ContentEncoding| == 16;
  }

  /** The first value stored under `key`, or "" when there is none. */
  function Get(h: Header, key: string): (v: string)
    ensures key !in h ==> v == ""
    ensures key in h && h[key] != [] ==> v == h[key][0]
    ensures key in h && h[key] == [] ==> v == ""
  {
    if key in h && |h[key]| > 0 then h[key][0] else ""
  }

  /** Replaces every value of `key` by the single value `v`. */
  function Set(h: Header, key: string, v: string): (r: Header)
    ensures r.Keys == h.Keys + {key}
    ensures r[key] == [v] && Get(r, key) == v
    ensures forall k :: k in h && k != key ==> r[k] == h[k]
  {
    h[key := [v]]
  }

  /** Removes `key` and its values. */
  function Del(h: Header, key: string): (r: Header)
    ensures r.Keys == h.Keys - {key}
    ensures Get(r, key) == ""
    ensures forall k :: k in r ==> r[k] == h[k]
  {
    h - {key}
  }

  /**
    Copies the overrides key by key over `h`: every overridden key gets the
    override's values, every other key keeps its own.
  */
  function Overlay(h: Header, overrides: Header): (r: Header)
    ensures r.Keys == h.Keys + overrides.Keys
    ensures forall k :: k in overrides ==> r[k] == overrides[k]
    ensures forall k :: k in h && k !in overrides ==> r[k] == h[k]
  {
    map k | k in h.Keys + overrides.Keys :: if k in overrides then overrides[k] else h[k]
  }

  /**
    Deletes Content-Length when its first value is non-empty. A
    Content-Length key whose first value is empty, or that has no value,
    is kept.
  */
  function DropContentLength(h: Header): (r: Header)
    ensures Get(r, ContentLength) == ""
    ensures ContentLength in r ==> ContentLength in h && r[ContentLength] == h[ContentLength]
    ensures ContentLength in h && Get(h, ContentLength) != "" ==> ContentLength !in r
    ensures ContentLength in h && Get(h, ContentLength) == "" ==> r == h
    ensures forall k :: k != ContentLength ==> (k in r <==> k in h)
    ensures forall k :: k in r && k != ContentLength ==> r[k] == h[k]
  {
    if Get(h, ContentLength) != "" then Del(h, ContentLength) else h
  }
}
