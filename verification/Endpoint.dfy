/** Storage endpoints: `ParseEndpoint` and the printing of `BuildPublicBaseUrl`. */
module Endpoints {
  import opened Wrappers
  import opened Text

  datatype Endpoint = Endpoint(scheme: string, host: string, port: int)

  const SCHEME_END := "://"

  function ParseEndpoint(endpoint: string, defaultScheme: string, defaultPort: int): Result<Endpoint>
  {
    var schemePos := Find(endpoint, SCHEME_END);
    if schemePos.Some? then ParseRest(endpoint[..schemePos.value], endpoint[schemePos.value + 3..], defaultPort)
    else ParseRest(defaultScheme, endpoint, defaultPort)
  }

  /** The endpoint with the port `stoi` read, or the exception it threw. */
  function AtPort(scheme: string, host: string, port: Result<int>): Result<Endpoint>
  {
    match port
    case Ok(p) => Ok(Endpoint(scheme, host, p))
    case InvalidArgument => InvalidArgument
    case OutOfRange => OutOfRange
  }

  /** ParseEndpoint once the scheme is known. */
  function ParseRest(scheme: string, rest: string, defaultPort: int): (r: Result<Endpoint>)
    ensures r.Ok? ==> r.value.scheme == scheme
  {
    var slashPos := Find(rest, "/");
    var remain := if slashPos.Some? then rest[..slashPos.value] else rest;
    var portPos := LastIndex(remain, ':');
    if portPos.Some? then
      AtPort(scheme, remain[..portPos.value], Stoi(remain[portPos.value + 1..]))
    else Ok(Endpoint(scheme, remain, defaultPort))
  }

  /** The base URL of an endpoint. */
  function BaseUrl(e: Endpoint): string
  {
    e.scheme + SCHEME_END + e.host + ":" + ToString(e.port)
  }

  ghost predicate Contains(s: string, pat: string) { exists i: nat :: At(s, pat, i) }

  lemma NoCharNoFind(s: string, c: char)
    ensures c !in s <==> Find(s, [c]) == None
  {
    var f := Find(s, [c]);
    if f.Some? {
      assert s[f.value..f.value + 1][0] == c;
    } else {
      forall i | 0 <= i < |s| ensures s[i] != c {
        assert !At(s, [c], i);
      }
    }
  }

  /** "://" does not overlap itself, so the first one in `scheme ++ "://" ++ rest` is the one put there. */
  lemma FirstSchemeEnd(scheme: string, rest: string)
    ensures Find(scheme + SCHEME_END + rest, SCHEME_END) == Some(|scheme|) <==> !Contains(scheme, SCHEME_END)
  {
    var s := scheme + SCHEME_END + rest;
    assert At(s, SCHEME_END, |scheme|);
    forall j: nat | j < |scheme| ensures At(s, SCHEME_END, j) <==> At(scheme, SCHEME_END, j) {
      if j + 3 <= |scheme| {
        assert s[j..j + 3] == scheme[j..j + 3];
      } else {
        assert s[j..j + 3][|scheme| - j] == s[|scheme|] == ':';
      }
    }
    if !Contains(scheme, SCHEME_END) {
      FirstIsFound(s, SCHEME_END, 0, |scheme|);
    }
  }

  lemma ParseHostAndPort(scheme: string, host: string, port: int, defaultPort: int)
    requires '/' !in host && IsInt(port)
    ensures ParseRest(scheme, host + ":" + ToString(port), defaultPort) == Ok(Endpoint(scheme, host, port))
  {
    hide Stoi, ToString;
    var remain, number := host + ":" + ToString(port), ToString(port);
    forall c | c in number ensures c != '/' && c != ':' {
      ToStringCharacters(port, c);
    }
    NoCharNoFind(remain, '/');
    LastColon(host, number);
    StoiUndoesToString(port);
  }

  /** Printing and parsing again gives an endpoint back exactly when its scheme is free of "://". */
  lemma ParseUndoesBaseUrl(e: Endpoint, scheme: string, port: int)
    requires '/' !in e.host && IsInt(e.port)
    ensures ParseEndpoint(BaseUrl(e), scheme, port) == Ok(e) <==> !Contains(e.scheme, SCHEME_END)
  {
    hide ParseRest, Find, ToString;
    var remain := e.host + ":" + ToString(e.port);
    var url := BaseUrl(e);
    assert url == e.scheme + SCHEME_END + remain;
    FirstSchemeEnd(e.scheme, remain);
    ParseHostAndPort(e.scheme, e.host, e.port, port);
    assert At(url, SCHEME_END, |e.scheme|);
    BeforeFirst(url, |e.scheme|);
    assert url[..|e.scheme|] == e.scheme && url[|e.scheme| + 3..] == remain;
  }

  lemma BeforeFirst(s: string, i: nat)
    requires At(s, SCHEME_END, i)
    ensures Find(s, SCHEME_END).Some? && Find(s, SCHEME_END).value <= i
  {
  }

  lemma RestParts(scheme: string, rest: string, port: int, e: Endpoint)
    requires ParseRest(scheme, rest, port) == Ok(e) && IsInt(port)
    ensures '/' !in e.host && IsInt(e.port)
  {
    hide Stoi;
    var slash := Find(rest, "/");
    var remain := if slash.Some? then rest[..slash.value] else rest;
    forall i | 0 <= i < |remain| ensures remain[i] != '/' {
      assert !At(rest, "/", i);
    }
  }

  /** What precedes the first "://" is free of it. */
  lemma BeforeSchemeEnd(s: string, i: nat)
    requires Find(s, SCHEME_END) == Some(i)
    ensures !Contains(s[..i], SCHEME_END) && Contains(s, SCHEME_END)
  {
    forall j: nat ensures !At(s[..i], SCHEME_END, j) {
      if j + 3 <= i {
        assert !At(s, SCHEME_END, j);
        assert s[..i][j..j + 3] == s[j..j + 3];
      }
    }
    assert At(s, SCHEME_END, i);
  }

  lemma ParsedParts(endpoint: string, scheme: string, port: int, e: Endpoint)
    requires ParseEndpoint(endpoint, scheme, port) == Ok(e) && IsInt(port)
    ensures '/' !in e.host && IsInt(e.port)
    ensures if Contains(endpoint, SCHEME_END) then !Contains(e.scheme, SCHEME_END) else e.scheme == scheme
  {
    hide ParseRest, FindFrom, Contains, BaseUrl;
    var pos := Find(endpoint, SCHEME_END);
    if pos.Some? {
      BeforeSchemeEnd(endpoint, pos.value);
      RestParts(endpoint[..pos.value], endpoint[pos.value + 3..], port, e);
    } else {
      NotContained(endpoint);
      RestParts(scheme, endpoint, port, e);
    }
  }

  lemma NotContained(s: string)
    ensures Find(s, SCHEME_END) == None <==> !Contains(s, SCHEME_END)
  {
  }

  /** Whatever a parse accepts has a normal form: for every string that does not throw, the printed result
      parses to the same triple under any defaults, unless the string had no scheme and the default scheme
      itself contains "://". */
  lemma NormalForm(endpoint: string, scheme: string, port: int, e: Endpoint, scheme': string, port': int)
    requires ParseEndpoint(endpoint, scheme, port) == Ok(e) && IsInt(port)
    ensures ParseEndpoint(BaseUrl(e), scheme', port') == Ok(e) <==>
            Contains(endpoint, SCHEME_END) || !Contains(scheme, SCHEME_END)
  {
    ParsedParts(endpoint, scheme, port, e);
    ParseUndoesBaseUrl(e, scheme', port');
  }

  /** With the default scheme the program passes, it always has one. */
  lemma NormalFormHttp(endpoint: string, port: int, e: Endpoint, scheme': string, port': int)
    requires ParseEndpoint(endpoint, "http", port) == Ok(e) && IsInt(port)
    ensures ParseEndpoint(BaseUrl(e), scheme', port') == Ok(e)
  {
    hide ParseEndpoint, BaseUrl, Contains;
    NormalForm(endpoint, "http", port, e, scheme', port');
    HttpIsAScheme();
  }

  lemma HttpIsAScheme()
    ensures !Contains("http", SCHEME_END)
  {
    forall i: nat ensures !At("http", SCHEME_END, i) {
      if i + 3 <= 4 {
        assert "http"[i..i + 3][0] == "http"[i] != ':';
      }
    }
  }

  lemma FirstSlash(authority: string, path: string)
    requires '/' !in authority && (path == [] || path[0] == '/')
    ensures var pos := Find(authority + path, "/");
            (if pos.Some? then (authority + path)[..pos.value] else authority + path) == authority
  {
    var rest := authority + path;
    if path == [] {
      NoCharNoFind(rest, '/');
      assert rest == authority;
    } else {
      assert At(rest, "/", |authority|);
      forall j: nat | j < |authority| ensures !At(rest, "/", j) {
        assert rest[j..j + 1][0] == authority[j];
      }
      FirstIsFound(rest, "/", 0, |authority|);
    }
  }

  lemma LastColon(host: string, portText: string)
    requires ':' !in portText
    ensures var s := host + ":" + portText;
            LastIndex(s, ':') == Some(|host|) && s[..|host|] == host && s[|host| + 1..] == portText
  {
    var s := host + ":" + portText;
    assert s[|host|] == ':';
    forall k | |host| < k < |s| ensures s[k] != ':' {
      assert s[k] == portText[k - |host| - 1];
      assert s[k] in portText;
    }
  }

  lemma RestWithPort(scheme: string, host: string, portText: string, path: string, port: int)
    requires '/' !in host + ":" + portText && ':' !in portText && (path == [] || path[0] == '/')
    ensures ParseRest(scheme, host + ":" + portText + path, port) == AtPort(scheme, host, Stoi(portText))
  {
    FirstSlash(host + ":" + portText, path);
    LastColon(host, portText);
    hide FindFrom, LastIndex, Stoi;
  }

  lemma RestWithoutPort(scheme: string, host: string, path: string, port: int)
    requires '/' !in host && ':' !in host && (path == [] || path[0] == '/')
    ensures ParseRest(scheme, host + path, port) == Ok(Endpoint(scheme, host, port))
  {
    FirstSlash(host, path);
    hide FindFrom, Stoi;
  }

  lemma SchemeCutOff(scheme: string, rest: string, scheme': string, port: int)
    requires !Contains(scheme, SCHEME_END)
    ensures ParseEndpoint(scheme + SCHEME_END + rest, scheme', port) == ParseRest(scheme, rest, port)
  {
    var s := scheme + SCHEME_END + rest;
    FirstSchemeEnd(scheme, rest);
    assert s[..|scheme|] == scheme && s[|scheme| + 3..] == rest;
  }

  /** What each part of an endpoint text becomes: the path is dropped, the text after the last colon of the
      authority goes through `stoi` (and its exceptions come out), and without a colon the default port is
      used. */
  lemma ParseByParts(scheme: string, host: string, portText: string, path: string, scheme': string, port: int)
    requires !Contains(scheme, SCHEME_END) && '/' !in host + ":" + portText && ':' !in portText
    requires path == [] || path[0] == '/'
    ensures var r := ParseEndpoint(scheme + SCHEME_END + (host + ":" + portText + path), scheme', port);
            match Stoi(portText)
            case Ok(n) => r == Ok(Endpoint(scheme, host, n))
            case InvalidArgument => r.InvalidArgument?
            case OutOfRange => r.OutOfRange?
    ensures ':' !in host ==>
      ParseEndpoint(scheme + SCHEME_END + (host + path), scheme', port) == Ok(Endpoint(scheme, host, port))
  {
    hide ParseEndpoint, ParseRest, Contains;
    SchemeCutOff(scheme, host + ":" + portText + path, scheme', port);
    RestWithPort(scheme, host, portText, path, port);
    if ':' !in host {
      SchemeCutOff(scheme, host + path, scheme', port);
      assert forall c :: c in host ==> c in host + ":" + portText;
      RestWithoutPort(scheme, host, path, port);
    }
  }

  /** The same for a text without "://", under the default scheme. */
  lemma ParseWithoutScheme(host: string, portText: string, path: string, scheme: string, port: int)
    requires !Contains(host + ":" + portText + path, SCHEME_END)
    requires '/' !in host + ":" + portText && ':' !in portText && (path == [] || path[0] == '/')
    ensures var r := ParseEndpoint(host + ":" + portText + path, scheme, port);
            match Stoi(portText)
            case Ok(n) => r == Ok(Endpoint(scheme, host, n))
            case InvalidArgument => r.InvalidArgument?
            case OutOfRange => r.OutOfRange?
  {
    NotContained(host + ":" + portText + path);
    hide ParseRest, Contains, Stoi;
    RestWithPort(scheme, host, portText, path, port);
  }

  /** A text with neither a scheme nor a port has both by default. */
  lemma ParseHostOnly(host: string, path: string, scheme: string, port: int)
    requires !Contains(host + path, SCHEME_END) && '/' !in host && ':' !in host && (path == [] || path[0] == '/')
    ensures ParseEndpoint(host + path, scheme, port) == Ok(Endpoint(scheme, host, port))
  {
    NotContained(host + path);
    hide ParseRest, Contains;
    RestWithoutPort(scheme, host, path, port);
  }

  /** Among the texts that give scheme, host and port, the base URL is the shortest, and no other is as short:
      it has nothing after the port, and no superfluous character in the port. */
  lemma BaseUrlIsShortest(scheme: string, host: string, portText: string, path: string, n: int)
    requires Stoi(portText) == Ok(n)
    ensures var url, text := BaseUrl(Endpoint(scheme, host, n)), scheme + SCHEME_END + (host + ":" + portText + path);
            |url| <= |text| && (|url| == |text| ==> url == text)
  {
    hide Stoi, ToString;
    ToStringIsShortest(portText, n);
    var url := BaseUrl(Endpoint(scheme, host, n));
    assert url == scheme + SCHEME_END + (host + ":" + ToString(n) + []);
  }

  /** The endpoint the program is shipped with. */
  lemma ShippedEndpoint()
    ensures BaseUrl(Endpoint("http", "127.0.0.1", 8080)) == "http://127.0.0.1:8080"
    ensures ParseEndpoint("http://127.0.0.1:8080", "http", 8080) == Ok(Endpoint("http", "127.0.0.1", 8080))
  {
    PrintedNumbers();
    HttpIsAScheme();
    hide ParseEndpoint, ToString, Contains;
    var e := Endpoint("http", "127.0.0.1", 8080);
    assert BaseUrl(e) == "http://127.0.0.1:8080";
    assert forall i :: 0 <= i < |e.host| ==> e.host[i] != '/';
    ParseUndoesBaseUrl(e, "http", 8080);
  }
}
