/** The S3 URL of a deployment: printed by profile_request.py, parsed by records.py and again by kubernetes.py. */
module S3Url {
  import opened Wrappers
  import opened Digits
  import opened Text

  const S3 := "s3://"

  function WithoutS3(s: string): string { if S3 <= s then s[5..] else s }

  predicate Http(s: string) { "http://" <= s || "https://" <= s }

  /** The part before the first of the given characters. */
  function Until(s: string, stops: set<char>): (r: string)
    ensures r <= s && forall c :: c in r ==> c !in stops
  {
    if s == [] || s[0] in stops then []
    else
      var rest := Until(s[1..], stops);
      assert s == [s[0]] + s[1..];
      [s[0]] + rest
  }

  predicate Dropped(c: char) { c == '\t' || c == '\r' || c == '\n' }

  /** urlsplit drops tabs and line breaks anywhere. */
  function Cleaned(s: string): (r: string)
    ensures |r| <= |s|
  {
    if s == [] then [] else (if Dropped(s[0]) then [] else [s[0]]) + Cleaned(s[1..])
  }

  function LastSlash(s: string): (i: int)
    ensures -1 <= i < |s| && (i >= 0 ==> s[i] == '/') && forall k :: i < k < |s| ==> s[k] != '/'
  {
    if s == [] then -1 else if s[|s| - 1] == '/' then |s| - 1 else LastSlash(s[..|s| - 1])
  }

  /** Where the last segment of a path starts, with its slash. */
  function LastSegment(path: string): (i: nat)
    ensures i <= |path|
  {
    if LastSlash(path) < 0 then 0 else LastSlash(path)
  }

  /** The parameters, from the first semicolon of the last segment on, are not part of the path. */
  function WithoutParams(path: string): (r: string)
    ensures r <= path
  {
    path[..LastSegment(path)] + Until(path[LastSegment(path)..], {';'})
  }

  /** urlparse on a cleaned text behind its authority. */
  function PathOf(rest: string): string { WithoutParams(Until(Cleaned(rest), {'?', '#'})) }

  datatype Url = Url(scheme: string, netloc: string, path: string)

  /** A URL with a bracket but not its partner is refused. */
  function UrlParse(value: string): Reply<Url>
    requires Http(value)
  {
    var scheme := if "http://" <= value then "http" else "https";
    var rest := Cleaned(value[|scheme| + 3..]);
    var netloc := Until(rest, {'/', '?', '#'});
    if ('[' in netloc) != (']' in netloc) then Failed
    else Ok(Url(scheme, netloc, WithoutParams(Until(rest[|netloc|..], {'?', '#'}))))
  }

  function After(s: string, c: char): (r: string)
    requires c in s
    ensures |r| < |s|
  {
    if s[0] == c then s[1..] else After(s[1..], c)
  }

  function AfterLast(s: string, c: char): string
    decreases |s|
  {
    if c in s then AfterLast(After(s, c), c) else s
  }

  function PortText(netloc: string): string {
    var host := AfterLast(netloc, '@');
    var tail := if '[' in host then (if ']' in After(host, '[') then After(After(host, '['), ']') else "") else host;
    if ':' in tail then After(tail, ':') else ""
  }

  /** The port of an authority, if it has one; a port that is no number up to 65535 is an error. */
  function Port(netloc: string): Reply<Option<nat>> {
    var text := PortText(netloc);
    if text == "" then Ok(None)
    else if (forall c | c in text :: Digit(c, 10)) && Value(text, 10) <= 65535 then Ok(Some(Value(text, 10)))
    else Failed
  }

  lemma {:induction false} AfterMark(a: string, b: string, mark: char)
    requires mark !in a
    ensures After(a + [mark] + b, mark) == b
  {
    var s := a + [mark] + b;
    if a == [] {
      assert s[1..] == b;
    } else {
      assert s[0] == a[0] && s[1..] == a[1..] + [mark] + b;
      AfterMark(a[1..], b, mark);
    }
  }

  /** A plain host has no port; one followed by a colon and a number has that port, up to 65535. */
  lemma PortRead(host: string, port: string)
    requires '@' !in host && '[' !in host && ':' !in host
    requires port != "" && forall c :: c in port ==> '0' <= c <= '9'
    ensures Port(host) == Ok(None)
    ensures Port(host + ":" + port) == if Value(port, 10) <= 65535 then Ok(Some(Value(port, 10))) else Failed
  {
    AfterMark(host, port, ':');
    var netloc := host + ":" + port;
    assert ':' in netloc && '@' !in netloc && '[' !in netloc;
    assert netloc == host + [':'] + port;
  }

  /** http on the port of https is taken for https. */
  function SchemeOf(url: Url): Reply<string> {
    if url.scheme == "http" then
      match Port(url.netloc)
      case Failed => Failed
      case Ok(port) => Ok(if port == Some(443) then "https" else "http")
    else Ok(url.scheme)
  }

  datatype Location = Location(endpoint: Option<string>, bucket: string, prefix: Option<string>, https: bool)

  function LocationOf(endpoint: Option<string>, parts: seq<string>, https: bool): Location {
    var rest := if parts == [] then "" else Join(parts[1..]);
    Location(endpoint, if parts == [] then "" else parts[0], if rest == "" then None else Some(rest), https)
  }

  /** `_parse_s3_url` */
  function ParseS3Url(s: string): Reply<Location> {
    var value := Trim(WithoutS3(s));
    if !Http(value) then Ok(LocationOf(None, Parts(value), false))
    else
      match UrlParse(value)
      case Failed => Failed
      case Ok(url) =>
        match SchemeOf(url)
        case Failed => Failed
        case Ok(scheme) => Ok(LocationOf(Some(scheme + "://" + url.netloc), Parts(url.path), scheme == "https"))
  }

  /** `_aws_s3_source`: a URL of bucket and prefix, and the endpoint. */
  function AwsS3Source(s: string): Reply<(string, Option<string>)> {
    var value := Trim(WithoutS3(s));
    if !Http(value) then Ok((S3 + value, None))
    else
      match UrlParse(value)
      case Failed => Failed
      case Ok(url) =>
        match SchemeOf(url)
        case Failed => Failed
        case Ok(scheme) => Ok((S3 + Trim(url.path), Some(scheme + "://" + url.netloc)))
  }

  /** The printer in `resolve_profile_request`. */
  function PrintS3Url(endpoint: string, bucket: string, repositoryPrefix: string): Reply<string> {
    var prefix := Trim(repositoryPrefix);
    if exists part | part in Split(prefix) :: part in {".", ".."} then Failed
    else if !Http(TrimRight(endpoint)) then Failed
    else Ok(S3 + TrimRight(endpoint) + "/" + bucket + "/" + prefix)
  }

  /** A URL is printed for every HTTP endpoint and every prefix that does not climb. */
  lemma PrintedExactly(endpoint: string, bucket: string, repositoryPrefix: string)
    ensures PrintS3Url(endpoint, bucket, repositoryPrefix).Ok? <==>
              && ("http://" <= TrimRight(endpoint) || "https://" <= TrimRight(endpoint))
              && "." !in Split(Trim(repositoryPrefix)) && ".." !in Split(Trim(repositoryPrefix))
  {
  }

  // ---------- The two parsers agree ----------

  lemma {:induction false} NonEmptyConcat(a: seq<string>, b: seq<string>)
    ensures NonEmpty(a + b) == NonEmpty(a) + NonEmpty(b)
  {
    if a == [] {
      assert a + b == b;
    } else {
      assert (a + b)[0] == a[0] && (a + b)[1..] == a[1..] + b;
      NonEmptyConcat(a[1..], b);
    }
  }

  lemma {:induction false} SplitEndSlash(s: string)
    ensures Split(s + "/") == Split(s) + [""]
  {
    if s == [] {
      assert Split("/"[1..]) == [""];
    } else {
      assert (s + "/")[1..] == s[1..] + "/" && (s + "/")[0] == s[0];
      SplitEndSlash(s[1..]);
      var rest := Split(s[1..]);
      assert (rest + [""])[0] == rest[0] && (rest + [""])[1..] == rest[1..] + [""];
    }
  }

  lemma {:induction false} PartsTrimLeft(s: string)
    ensures Parts(TrimLeft(s)) == Parts(s)
  {
    if s != "" && s[0] == '/' {
      PartsTrimLeft(s[1..]);
      assert ([""] + Split(s[1..]))[1..] == Split(s[1..]);
    }
  }

  lemma {:induction false} PartsTrimRight(s: string)
    ensures Parts(TrimRight(s)) == Parts(s)
    decreases |s|
  {
    if s != "" && s[|s| - 1] == '/' {
      var t := s[..|s| - 1];
      PartsTrimRight(t);
      assert s == t + "/";
      SplitEndSlash(t);
      NonEmptyConcat(Split(t), [""]);
    }
  }

  lemma PartsTrim(s: string)
    ensures Parts(Trim(s)) == Parts(s)
  {
    PartsTrimLeft(s);
    PartsTrimRight(TrimLeft(s));
  }

  lemma AddS3(s: string)
    ensures S3 <= S3 + s && WithoutS3(S3 + s) == s
  {
  }

  /** On every text the two parsers fail together, name the same endpoint, and find the same bucket and prefix parts. */
  lemma ParsersAgree(s: string)
    ensures ParseS3Url(s).Failed? <==> AwsS3Source(s).Failed?
    ensures ParseS3Url(s).Ok? ==>
              var (source, endpoint) := AwsS3Source(s).value;
              S3 <= source && ParseS3Url(s).value == LocationOf(endpoint, Parts(WithoutS3(source)), ParseS3Url(s).value.https)
  {
    var value := Trim(WithoutS3(s));
    if Http(value) {
      if UrlParse(value).Ok? {
        PartsTrim(UrlParse(value).value.path);
        AddS3(Trim(UrlParse(value).value.path));
      }
    } else {
      AddS3(value);
    }
  }

  lemma NoScheme(scheme: string, bucket: string, prefix: string)
    requires scheme in {"http://", "https://", "s3://"} && bucket != "" && '/' !in bucket && NoEmptyParts(prefix)
    ensures !(scheme <= PathFor(bucket, prefix)[1..])
  {
    var value, n := PathFor(bucket, prefix)[1..], |scheme| - 1;
    assert value == bucket + if prefix == "" then "" else "/" + prefix;
    if scheme <= value {
      assert scheme[n] == '/' && scheme[n - 1] == '/' && value[n] == '/' && value[n - 1] == '/';
      FirstSlash(bucket, prefix, n - 1);
      assert false;
    }
  }

  /** Behind a bucket comes one slash, as no part of the prefix is empty. */
  lemma FirstSlash(bucket: string, prefix: string, i: nat)
    requires '/' !in bucket && NoEmptyParts(prefix)
    ensures var value := bucket + if prefix == "" then "" else "/" + prefix;
            i + 1 < |value| && (forall k :: 0 <= k < i ==> value[k] != '/') && value[i] == '/' ==> value[i + 1] != '/'
  {
    NoStartSlash(prefix);
    var value := bucket + if prefix == "" then "" else "/" + prefix;
    assert i < |bucket| ==> value[i] == bucket[i];
    assert prefix != "" ==> value[|bucket|] == '/' && value[|bucket| + 1] == prefix[0];
  }

  lemma NoStartSlash(prefix: string)
    requires NoEmptyParts(prefix)
    ensures prefix == "" || prefix[0] != '/'
  {
  }

  /** A text without an endpoint names bucket and prefix, for both parsers, and no endpoint is spoken to. */
  lemma BucketAndPrefix(bucket: string, prefix: string)
    requires bucket != "" && '/' !in bucket && NoEmptyParts(prefix)
    ensures var value := PathFor(bucket, prefix)[1..];
            && ParseS3Url(S3 + value) == Ok(Location(None, bucket, if prefix == "" then None else Some(prefix), false))
            && ParseS3Url(value) == ParseS3Url(S3 + value)
            && AwsS3Source(S3 + value) == AwsS3Source(value) == Ok((S3 + value, None))
  {
    var value := PathFor(bucket, prefix)[1..];
    NoScheme("http://", bucket, prefix);
    NoScheme("https://", bucket, prefix);
    NoScheme("s3://", bucket, prefix);
    AddS3(value);
    NoEndSlash(prefix);
    TrimPath(bucket, prefix);
    TrimAgain(PathFor(bucket, prefix));
    PartsTrim(PathFor(bucket, prefix));
    PathParts(bucket, prefix);
  }

  lemma NoEndSlash(prefix: string)
    requires NoEmptyParts(prefix)
    ensures prefix == "" || prefix[|prefix| - 1] != '/'
  {
    if prefix != "" && prefix[|prefix| - 1] == '/' {
      assert prefix[..|prefix| - 1] + "/" == prefix;
      SplitEndSlash(prefix[..|prefix| - 1]);
      assert false;
    }
  }

  lemma {:induction false} TrimAgain(s: string)
    ensures Trim(Trim(s)) == Trim(s)
  {
    var from, until := TrimmedExactly(s);
    var t := Trim(s);
    if t != "" { assert t[0] == s[from] && t[|t| - 1] == s[until - 1]; }
  }

  // ---------- Printing and parsing ----------

  lemma {:induction false} CleanedConcat(a: string, b: string)
    requires forall c :: c in a ==> !Dropped(c)
    ensures Cleaned(a + b) == a + Cleaned(b)
  {
    if a == [] {
      assert a + b == b;
    } else {
      assert (a + b)[0] == a[0] && (a + b)[1..] == a[1..] + b && a[0] in a;
      CleanedConcat(a[1..], b);
      assert [a[0]] + a[1..] == a;
    }
  }

  lemma {:induction false} CleanedWhole(s: string)
    requires |Cleaned(s)| == |s|
    ensures Cleaned(s) == s && forall c :: c in s ==> !Dropped(c)
  {
    if s != [] { CleanedWhole(s[1..]); }
  }

  lemma {:induction false} UntilPlain(a: string, b: string, stops: set<char>)
    requires (forall c :: c in a ==> c !in stops) && (b == "" || b[0] in stops)
    ensures Until(a + b, stops) == a
  {
    if a == [] {
      assert a + b == b;
    } else {
      assert (a + b)[0] == a[0] && (a + b)[1..] == a[1..] + b;
      UntilPlain(a[1..], b, stops);
    }
  }

  /** The characters that a URL takes for something else than a path. */
  predicate PlainPath(path: string) {
    && (forall c | c in path :: c !in {'\t', '\r', '\n', '?', '#'})
    && forall k | 0 <= k < |path| && path[k] == ';' :: exists j | k < j < |path| :: path[j] == '/'
  }

  /** Parameters are looked for behind the last slash only. */
  lemma NoParameters(path: string)
    ensures ';' !in path[LastSegment(path)..] <==>
            forall k | 0 <= k < |path| && path[k] == ';' :: exists j | k < j < |path| :: path[j] == '/'
  {
    var n := LastSegment(path);
    assert forall k :: n <= k < |path| ==> path[n..][k - n] == path[k];
    if ';' in path[n..] {
      var k :| 0 <= k < |path[n..]| && path[n..][k] == ';';
      assert path[n + k] == ';' && forall j | n + k < j < |path| :: path[j] != '/';
    } else {
      forall k | 0 <= k < |path| && path[k] == ';' ensures exists j | k < j < |path| :: path[j] == '/' {
        assert path[n] == '/';
      }
    }
  }

  lemma PathShrinks(path: string)
    requires path != "" && path[0] == '/'
    ensures |PathOf(path)| <= |path| && PathOf(path) != "" && PathOf(path)[0] == '/'
  {
  }

  lemma PathWhole(path: string)
    requires |PathOf(path)| == |path|
    ensures PathOf(path) == path && PlainPath(path)
  {
    var rest := Until(Cleaned(path), {'?', '#'});
    CleanedWhole(path);
    assert rest == path;
    assert Until(path[LastSegment(path)..], {';'}) == path[LastSegment(path)..];
    NoParameters(path);
  }

  lemma PlainKept(path: string)
    requires PlainPath(path)
    ensures PathOf(path) == path
  {
    CleanedConcat(path, "");
    UntilPlain(path, "", {'?', '#'});
    assert path + "" == path && path + Cleaned("") == path;
    var last := path[LastSegment(path)..];
    NoParameters(path);
    UntilPlain(last, "", {';'});
    assert last + "" == last;
  }

  lemma {:induction false} TrimRightEnds(s: string)
    ensures TrimRight(s) <= s && (TrimRight(s) == "" || TrimRight(s)[|TrimRight(s)| - 1] != '/')
    decreases |s|
  {
    if s != "" && s[|s| - 1] == '/' { TrimRightEnds(s[..|s| - 1]); }
  }

  /** The path that the printer writes behind the endpoint, without a slash at its end. */
  function PathFor(bucket: string, prefix: string): string {
    "/" + bucket + if prefix == "" then "" else "/" + prefix
  }

  /** An endpoint that is scheme and authority only. */
  predicate Endpoint(scheme: string, authority: string) {
    && (scheme == "http" || scheme == "https") && authority != ""
    && (forall c | c in authority :: c !in {'/', '?', '#'} && !Dropped(c))
    && (('[' in authority) == (']' in authority))
    && (scheme == "http" ==> Port(authority).Ok?)
  }

  lemma TrimPrinted(endpoint: string, bucket: string, prefix: string)
    requires Http(endpoint) && bucket != "" && '/' !in bucket && (prefix == "" || prefix[|prefix| - 1] != '/')
    ensures Trim(endpoint + "/" + bucket + "/" + prefix) == endpoint + PathFor(bucket, prefix)
  {
    var t := endpoint + "/" + bucket + "/" + prefix;
    assert t[0] == endpoint[0] == 'h';
    assert TrimLeft(t) == t;
    var u := endpoint + "/" + bucket;
    assert u[|u| - 1] == bucket[|bucket| - 1] && bucket[|bucket| - 1] in bucket;
    if prefix == "" {
      assert t == u + "/" && t[..|t| - 1] == u;
      assert TrimRight(t) == TrimRight(u) == u;
      assert u == endpoint + PathFor(bucket, prefix);
    } else {
      assert t[|t| - 1] == prefix[|prefix| - 1];
      assert t == endpoint + PathFor(bucket, prefix);
    }
  }

  lemma SchemeParsed(scheme: string, rest: string)
    requires scheme == "http" || scheme == "https"
    ensures var value := scheme + "://" + rest;
            && Http(value) && value[|scheme| + 3..] == rest && ("http://" <= value <==> scheme == "http")
  {
    var value := scheme + "://" + rest;
    assert value == (scheme + "://") + rest && |scheme + "://"| == |scheme| + 3;
    if scheme == "http" {
      assert "http" + "://" == "http://";
      assert "http://" <= value;
    } else {
      assert "https" + "://" == "https://";
      assert "https://" <= value;
      assert value[4] == 's' && "http://"[4] == ':';
    }
  }

  lemma ParsePrinted(scheme: string, authority: string, path: string)
    requires Endpoint(scheme, authority) && path != "" && path[0] == '/'
    ensures Http(scheme + "://" + (authority + path))
    ensures UrlParse(scheme + "://" + (authority + path)) == Ok(Url(scheme, authority, PathOf(path)))
  {
    SchemeParsed(scheme, authority + path);
    CleanedConcat(authority, path);
    assert Cleaned(path)[0] == '/';
    UntilPlain(authority, Cleaned(path), {'/', '?', '#'});
    assert (authority + Cleaned(path))[|authority|..] == Cleaned(path);
  }

  /** A URL with a bracket but not its partner is refused. */
  lemma BracketsPair(scheme: string, authority: string, path: string)
    requires scheme in {"http", "https"} && path != "" && path[0] == '/'
    requires (forall c | c in authority :: c !in {'/', '?', '#'} && !Dropped(c)) && (('[' in authority) != (']' in authority))
    ensures Http(scheme + "://" + (authority + path)) && UrlParse(scheme + "://" + (authority + path)).Failed?
  {
    SchemeParsed(scheme, authority + path);
    CleanedConcat(authority, path);
    assert Cleaned(path)[0] == '/';
    UntilPlain(authority, Cleaned(path), {'/', '?', '#'});
  }

  /** http on the port of https is taken for https, a port out of range is refused, and https stays what it is. */
  lemma SchemeByPort(host: string, port: string, path: string)
    requires '@' !in host && '[' !in host && ':' !in host
    requires port != "" && forall c :: c in port ==> '0' <= c <= '9'
    ensures SchemeOf(Url("http", host, path)) == Ok("http")
    ensures SchemeOf(Url("http", host + ":" + port, path)) ==
            if Value(port, 10) > 65535 then Failed else Ok(if Value(port, 10) == 443 then "https" else "http")
    ensures SchemeOf(Url("https", host, path)) == SchemeOf(Url("https", host + ":" + port, path)) == Ok("https")
  {
    PortRead(host, port);
  }

  /** The printed path holds exactly the printed parts, if nothing in it is taken for something else. */
  lemma PathParts(bucket: string, prefix: string)
    requires '/' !in bucket && bucket != "" && NoEmptyParts(prefix)
    ensures var parts := Parts(PathFor(bucket, prefix)); parts != [] && parts[0] == bucket && Join(parts[1..]) == prefix
  {
    var path := PathFor(bucket, prefix);
    if prefix == "" {
      SplitAtSlash("", bucket);
      SplitPlain(bucket);
      assert path == "" + "/" + bucket;
      assert Split(path) == ["", bucket];
      assert Split(path)[1..] == [bucket] && NonEmpty([bucket]) == [bucket];
    } else {
      SplitAtSlash("", bucket + "/" + prefix);
      SplitAtSlash(bucket, prefix);
      assert path == "" + "/" + (bucket + "/" + prefix);
      NonEmptyAll(Split(prefix));
      NonEmptyConcat([""], [bucket] + Split(prefix));
      NonEmptyConcat([bucket], Split(prefix));
      assert Parts(path) == [bucket] + Split(prefix);
      assert ([bucket] + Split(prefix))[1..] == Split(prefix);
      JoinSplit(prefix);
    }
  }

  /** What is recovered from a path with some characters lost is shorter than what was printed. */
  lemma RecoveredIsWhole(bucket: string, prefix: string)
    requires bucket != "" && var parts := Parts(PathOf(PathFor(bucket, prefix)));
             parts != [] && parts[0] == bucket && Join(parts[1..]) == prefix
    ensures |PathOf(PathFor(bucket, prefix))| == |PathFor(bucket, prefix)| && NoEmptyParts(prefix)
  {
    var q := PathOf(PathFor(bucket, prefix));
    var parts := Parts(q);
    PathShrinks(PathFor(bucket, prefix));
    assert Split(q) == [""] + Split(q[1..]);
    JoinNonEmpty(Split(q));
    JoinSplit(q);
    assert |Join(parts)| < |q|;
    if |parts| > 1 {
      forall part | part in parts[1..] ensures '/' !in part && part != "" { assert part in parts && part in Split(q); }
      SplitJoin(parts[1..]);
    }
  }

  predicate Recovers(loc: Location, bucket: string, prefix: string) { loc.bucket == bucket && loc.prefix.GetOr("") == prefix }

  lemma RecoversExactly(endpoint: Option<string>, https: bool, bucket: string, prefix: string)
    requires bucket != "" && '/' !in bucket
    ensures Recovers(LocationOf(endpoint, Parts(PathOf(PathFor(bucket, prefix))), https), bucket, prefix)
            <==> PlainPath(PathFor(bucket, prefix)) && NoEmptyParts(prefix)
  {
    var path := PathFor(bucket, prefix);
    var parts := Parts(PathOf(path));
    if PlainPath(path) && NoEmptyParts(prefix) {
      PlainKept(path);
      PathParts(bucket, prefix);
    }
    if Recovers(LocationOf(endpoint, parts, https), bucket, prefix) {
      RecoveredIsWhole(bucket, prefix);
      PathWhole(path);
    }
  }

  lemma BehindS3(endpoint: string, bucket: string, prefix: string)
    ensures WithoutS3(S3 + endpoint + "/" + bucket + "/" + prefix) == endpoint + "/" + bucket + "/" + prefix
  {
  }

  lemma PrintedValue(endpoint: string, scheme: string, authority: string, bucket: string, prefix: string)
    requires Endpoint(scheme, authority) && bucket != "" && '/' !in bucket && (prefix == "" || prefix[|prefix| - 1] != '/')
    requires endpoint == scheme + "://" + authority
    ensures Trim(WithoutS3(S3 + endpoint + "/" + bucket + "/" + prefix)) == scheme + "://" + (authority + PathFor(bucket, prefix))
  {
    SchemeParsed(scheme, authority);
    TrimPrinted(endpoint, bucket, prefix);
    BehindS3(endpoint, bucket, prefix);
    assert scheme + "://" + (authority + PathFor(bucket, prefix)) == endpoint + PathFor(bucket, prefix);
  }

  /** The value that both parsers work on, as urlparse splits it. */
  ghost predicate Splits(printed: string, scheme: string, authority: string, path: string) {
    var value := Trim(WithoutS3(printed));
    Http(value) && UrlParse(value) == Ok(Url(scheme, authority, PathOf(path)))
  }

  lemma PrintedSplits(endpoint: string, scheme: string, authority: string, bucket: string, repositoryPrefix: string)
    requires TrimRight(endpoint) == scheme + "://" + authority && Endpoint(scheme, authority)
    requires bucket != "" && '/' !in bucket && PrintS3Url(endpoint, bucket, repositoryPrefix).Ok?
    ensures Splits(PrintS3Url(endpoint, bucket, repositoryPrefix).value, scheme, authority, PathFor(bucket, Trim(repositoryPrefix)))
  {
    var prefix := Trim(repositoryPrefix);
    TrimRightEnds(TrimLeft(repositoryPrefix));
    PrintedValue(TrimRight(endpoint), scheme, authority, bucket, prefix);
    ParsePrinted(scheme, authority, PathFor(bucket, prefix));
  }

  lemma SplitsParse(printed: string, scheme: string, authority: string, bucket: string, prefix: string)
    requires Endpoint(scheme, authority) && bucket != "" && '/' !in bucket
    requires Splits(printed, scheme, authority, PathFor(bucket, prefix))
    ensures var r := ParseS3Url(printed);
            && r.Ok?
            && r.value.https == (scheme == "https" || Port(authority) == Ok(Some(443)))
            && r.value.endpoint == Some((if r.value.https then "https" else "http") + "://" + authority)
            && (Recovers(r.value, bucket, prefix) <==> PlainPath(PathFor(bucket, prefix)) && NoEmptyParts(prefix))
  {
    var loc := ParseS3Url(printed).value;
    RecoversExactly(loc.endpoint, loc.https, bucket, prefix);
  }

  /** A printed URL parses to its endpoint, with http on port 443 read as https; bucket and prefix are recovered
      exactly when the path is plain and the prefix has no empty part. */
  lemma PrintThenParse(endpoint: string, scheme: string, authority: string, bucket: string, repositoryPrefix: string)
    requires TrimRight(endpoint) == scheme + "://" + authority && Endpoint(scheme, authority)
    requires bucket != "" && '/' !in bucket && PrintS3Url(endpoint, bucket, repositoryPrefix).Ok?
    ensures var r := ParseS3Url(PrintS3Url(endpoint, bucket, repositoryPrefix).value);
            var prefix := Trim(repositoryPrefix);
            && r.Ok?
            && r.value.https == (scheme == "https" || Port(authority) == Ok(Some(443)))
            && r.value.endpoint == Some((if r.value.https then "https" else "http") + "://" + authority)
            && (Recovers(r.value, bucket, prefix) <==> PlainPath(PathFor(bucket, prefix)) && NoEmptyParts(prefix))
  {
    PrintedSplits(endpoint, scheme, authority, bucket, repositoryPrefix);
    SplitsParse(PrintS3Url(endpoint, bucket, repositoryPrefix).value, scheme, authority, bucket, Trim(repositoryPrefix));
  }

  lemma SplitsSource(printed: string, scheme: string, authority: string, bucket: string, prefix: string)
    requires Endpoint(scheme, authority) && bucket != "" && '/' !in bucket && (prefix == "" || prefix[|prefix| - 1] != '/')
    requires Splits(printed, scheme, authority, PathFor(bucket, prefix)) && PlainPath(PathFor(bucket, prefix))
    ensures AwsS3Source(printed).Ok? && AwsS3Source(printed).value.0 == S3 + PathFor(bucket, prefix)[1..]
  {
    var path := PathFor(bucket, prefix);
    PlainKept(path);
    TrimPath(bucket, prefix);
    var url := UrlParse(Trim(WithoutS3(printed))).value;
    assert SchemeOf(url).Ok?;
    assert Trim(url.path) == path[1..];
  }

  lemma TrimPath(bucket: string, prefix: string)
    requires bucket != "" && '/' !in bucket && (prefix == "" || prefix[|prefix| - 1] != '/')
    ensures Trim(PathFor(bucket, prefix)) == PathFor(bucket, prefix)[1..]
  {
    var rest := PathFor(bucket, prefix)[1..];
    assert bucket[0] in bucket && bucket[|bucket| - 1] in bucket;
    assert rest == bucket + if prefix == "" then "" else "/" + prefix;
    assert rest[|rest| - 1] == if prefix == "" then bucket[|bucket| - 1] else prefix[|prefix| - 1];
    assert TrimLeft(PathFor(bucket, prefix)) == TrimLeft(rest) == rest;
  }

  /** On a printed URL with a plain path the second parser finds the same endpoint, and bucket and prefix as one path. */
  lemma PrintThenSource(endpoint: string, scheme: string, authority: string, bucket: string, repositoryPrefix: string)
    requires TrimRight(endpoint) == scheme + "://" + authority && Endpoint(scheme, authority)
    requires bucket != "" && '/' !in bucket && PrintS3Url(endpoint, bucket, repositoryPrefix).Ok?
    requires PlainPath(PathFor(bucket, Trim(repositoryPrefix)))
    ensures var printed := PrintS3Url(endpoint, bucket, repositoryPrefix).value;
            && AwsS3Source(printed).Ok? && ParseS3Url(printed).Ok?
            && AwsS3Source(printed).value.0 == S3 + PathFor(bucket, Trim(repositoryPrefix))[1..]
            && AwsS3Source(printed).value.1 == ParseS3Url(printed).value.endpoint
  {
    PrintedSplits(endpoint, scheme, authority, bucket, repositoryPrefix);
    TrimRightEnds(TrimLeft(repositoryPrefix));
    SplitsSource(PrintS3Url(endpoint, bucket, repositoryPrefix).value, scheme, authority, bucket, Trim(repositoryPrefix));
    ParsersAgree(PrintS3Url(endpoint, bucket, repositoryPrefix).value);
  }
}
