/** The slice of a PSR-7 request the adapter touches: its header map, which
    `withHeader` replaces by name, header names being case-insensitive. */
module Http {

  datatype Request = Request(verb: string, uri: string, headers: map<string, seq<string>>, body: string)

  function LowerAscii(s: string): string
  {
    seq(|s|, i requires 0 <= i < |s| => if 'A' <= s[i] <= 'Z' then (s[i] as int + 32) as char else s[i])
  }

  /** Header names compare without regard to ASCII case. */
  predicate SameHeaderName(a: string, b: string)
  {
    LowerAscii(a) == LowerAscii(b)
  }

  /** `$request->withHeader($name, $value)`: a new request whose only header
      named like `name` (in any case) is `name: value`; every other header,
      the method, the URI and the body are as before. */
  function WithHeader(r: Request, name: string, value: string): (r': Request)
    ensures r'.verb == r.verb && r'.uri == r.uri && r'.body == r.body
    ensures name in r'.headers && r'.headers[name] == [value]
    ensures forall k | k in r'.headers && SameHeaderName(k, name) :: k == name
    ensures forall k | !SameHeaderName(k, name) ::
      (k in r'.headers <==> k in r.headers) && (k in r.headers ==> r'.headers[k] == r.headers[k])
  {
    var kept := map k | k in r.headers && !SameHeaderName(k, name) :: r.headers[k];
    r.(headers := kept[name := [value]])
  }
}
