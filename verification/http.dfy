/** The slice of Go's `net/http` and `net/url` values the proxy hooks read and
    write. Header keys are taken to be in canonical form already: the server
    canonicalises incoming keys, and every key the proxy itself uses
    ("Metadata-Flavor", "Via") is canonical. */
module Http {

  /** `http.Header`: each key maps to its list of values, in arrival order. */
  type Header = map<string, seq<string>>

  /** The parts of `url.URL` the proxy touches; `rawQuery` stands for the rest. */
  datatype Url = Url(scheme: string, host: string, path: string, rawQuery: string)

  /** `URL.IsAbs`: a URL is absolute exactly when it has a scheme. */
  predicate IsAbs(u: Url): (b: bool)
    ensures b <==> |u.scheme| > 0
  {
    u.scheme != ""
  }

  /** An inbound request; `verb` is the HTTP method ("GET", "POST", ...). */
  datatype Request = Request(verb: string, url: Url, header: Header)

  datatype Response = Response(status: int, header: Header, body: string)

  /** All values stored under `key`, none when it is absent. */
  function Values(h: Header, key: string): seq<string> {
    if key in h then h[key] else []
  }

  /** `Header.Get`: the first value under `key`, or "" when there is none. */
  function Get(h: Header, key: string): (v: string)
    ensures |Values(h, key)| == 0 ==> v == ""
    ensures |Values(h, key)| > 0 ==> v == Values(h, key)[0]
  {
    if key in h && |h[key]| > 0 then h[key][0] else ""
  }

  /** `Header.Add`: appends one value under `key` and touches no other key. */
  function Add(h: Header, key: string, value: string): (h': Header)
    ensures Values(h', key) == Values(h, key) + [value]
    ensures h'.Keys == h.Keys + {key}
    ensures forall k :: k in h && k != key ==> h'[k] == h[k]
  {
    h[key := Values(h, key) + [value]]
  }
}
