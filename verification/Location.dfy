/**
 From an upstream Location to the proxied form the browser follows, and back: the path or
 query split, the slash trim, the percent decoding and the scheme normalisation. Characters
 are bytes; which byte strings are UTF-8 is left arbitrary, ASCII included.
 */
module Location {
  import opened Wrappers
  import opened Text
  import opened HeaderMaps

  datatype Rejection = NoTarget | InvalidUtf8 | UnsupportedScheme

  // ------------------------------------------------------------ rewriting

  predicate HasHttpScheme(raw: string) {
    StartsWith(raw, "http://") || StartsWith(raw, "https://")
  }

  function Rewritten(raw: string): string {
    if HasHttpScheme(raw) then "/" + raw else raw
  }

  /** Prefixes an absolute Location with a slash; anything else is left as it is. */
  method RewriteLocationHeader(headers: HeaderMap)
    modifies headers
    ensures headers.entries ==
            match Get(old(headers.entries), "location")
            case None => old(headers.entries)
            case Some(raw) =>
              if Readable(raw) && HasHttpScheme(raw) then old(headers.entries)["location" := ["/" + raw]]
              else old(headers.entries)
  {
    var location := Get(headers.entries, "location");
    if location.None? || !Readable(location.value) || !HasHttpScheme(location.value) {
      return;
    }
    var rewritten := "/" + location.value;
    ReadableIsOk(rewritten);
    if ValueOk(rewritten) {
      headers.Insert("location", rewritten);
    }
  }

  /** Exactly the absolute http and https texts are rewritten, by a slash before them. */
  lemma RewrittenExactly(raw: string)
    ensures Rewritten(raw) in {raw, "/" + raw}
    ensures Rewritten(raw) == "/" + raw <==>
            (|raw| >= 7 && raw[..7] == "http://") || (|raw| >= 8 && raw[..8] == "https://")
  {
    assert |"/" + raw| != |raw|;
  }

  // ----------------------------------------------------------- extraction

  /** The position of the first `c`, or the length. */
  function Find(s: string, c: char): (i: nat)
    ensures i <= |s| && c !in s[..i] && (i < |s| ==> s[i] == c)
    ensures i == |s| <==> c !in s
  {
    if s == [] then 0
    else if s[0] == c then 0
    else
      var i := Find(s[1..], c);
      assert s[..i + 1] == [s[0]] + s[1..][..i];
      i + 1
  }

  function BeforeFragment(s: string): string {
    s[..Find(s, '#')]
  }

  function PathOf(s: string): string {
    s[..Find(s, '?')]
  }

  function QueryOf(s: string): Option<string> {
    if Find(s, '?') < |s| then Some(s[Find(s, '?') + 1..]) else None
  }

  /** The value of the first pair named `key`; pieces without `=` are skipped. */
  function ValueIn(pairs: seq<string>, key: string): (v: Option<string>)
    ensures v.Some? ==> exists i :: 0 <= i < |pairs| && pairs[i] == key + "=" + v.value
  {
    if pairs == [] then None
    else
      var i := Find(pairs[0], '=');
      if i < |pairs[0]| && pairs[0][..i] == key then
        assert pairs[0] == key + "=" + pairs[0][i + 1..];
        Some(pairs[0][i + 1..])
      else
        var rest := ValueIn(pairs[1..], key);
        assert rest.Some? ==> forall j :: 0 <= j < |pairs| - 1 ==> pairs[1..][j] == pairs[j + 1];
        rest
  }

  function FindQueryValue(query: string, key: string): Option<string> {
    ValueIn(Split(query, '&'), key)
  }

  function TrimSlashes(s: string): string {
    if s != [] && s[0] == '/' then TrimSlashes(s[1..]) else s
  }

  function Candidate(path: string, query: Option<string>): Result<string, Rejection> {
    var value := if query.Some? then FindQueryValue(query.value, "url") else None;
    if value.Some? then Ok(value.value)
    else if TrimSlashes(path) == "" then Err(NoTarget)
    else Ok(TrimSlashes(path) + if query.Some? then "?" + query.value else "")
  }

  function HexValue(c: char): Option<nat> {
    if '0' <= c <= '9' then Some((c - '0') as nat)
    else if 'a' <= c <= 'f' then Some((c - 'a') as nat + 10)
    else if 'A' <= c <= 'F' then Some((c - 'A') as nat + 10)
    else None
  }

  /** A percent sign followed by two hexadecimal digits. */
  predicate EscapeAt(s: string, i: nat) {
    i + 2 < |s| && s[i] == '%' && HexValue(s[i + 1]).Some? && HexValue(s[i + 2]).Some?
  }

  predicate HasEscape(s: string) {
    exists i :: 0 <= i < |s| && EscapeAt(s, i)
  }

  /** Percent decoding; a percent sign that begins no escape is kept. */
  function Decoded(s: string): string {
    if s == [] then []
    else if EscapeAt(s, 0) then
      [(16 * HexValue(s[1]).value + HexValue(s[2]).value) as char] + Decoded(s[3..])
    else
      [s[0]] + Decoded(s[1..])
  }

  /** The position of the first `://`, or the length. */
  function FindScheme(s: string): (i: nat)
    ensures i <= |s| && (i < |s| ==> StartsWith(s[i..], "://"))
    ensures forall j :: 0 <= j < i ==> !StartsWith(s[j..], "://")
  {
    if s == [] || StartsWith(s, "://") then 0
    else
      var i := FindScheme(s[1..]);
      assert forall j :: 0 < j <= i ==> s[j..] == s[1..][j - 1..];
      i + 1
  }

  function NormalizeScheme(raw: string): Result<string, Rejection> {
    var i := FindScheme(raw);
    if i < |raw| then
      if Lower(raw[..i]) == "http" || Lower(raw[..i]) == "https" then Ok(raw) else Err(UnsupportedScheme)
    else if EndsWith(raw[..Find(raw, '/')], ":443") then Ok("https://" + raw)
    else Ok("http://" + raw)
  }

  /** The target a request line names, before URL parsing proper. */
  function Extracted(utf8: string -> bool, target: string): Result<string, Rejection> {
    var line := BeforeFragment(target);
    match Candidate(PathOf(line), QueryOf(line))
    case Err(e) => Err(e)
    case Ok(candidate) =>
      if utf8(Decoded(candidate)) then NormalizeScheme(Decoded(candidate)) else Err(InvalidUtf8)
  }

  // --------------------------------------------------- scheme normalisation

  /** A text that begins with an http scheme is accepted as it stands. */
  lemma HttpSchemeIsNormal(s: string)
    requires HasHttpScheme(s)
    ensures NormalizeScheme(s) == Ok(s)
  {
    var n := if StartsWith(s, "http://") then 4 else 5;
    assert s[..n] == if n == 4 then "http" else "https";
    assert s[n..] == s[n..][..3] + s[n..][3..];
    assert StartsWith(s[n..], "://");
    SchemeAt(s, n);
  }

  lemma {:induction false} SchemeAt(s: string, n: nat)
    requires n < |s| && StartsWith(s[n..], "://") && ':' !in s[..n]
    ensures FindScheme(s) == n
  {
    if n == 0 {
    } else {
      assert s[0] in s[..n];
      assert s[1..][..n - 1] == s[1..n] && s[1..][n - 1..] == s[n..];
      assert forall c :: c in s[1..n] ==> c in s[..n];
      SchemeAt(s[1..], n - 1);
    }
  }

  /** Normalising an accepted text again changes nothing. */
  lemma NormalizeTwice(raw: string)
    requires NormalizeScheme(raw).Ok?
    ensures NormalizeScheme(NormalizeScheme(raw).value) == NormalizeScheme(raw)
  {
    if FindScheme(raw) == |raw| {
      HttpSchemeIsNormal(NormalizeScheme(raw).value);
    }
  }

  /** No `://` begins anywhere before `n`. */
  ghost predicate NoSchemeBefore(s: string, n: nat) {
    forall i :: 0 <= i < n && i < |s| ==> !StartsWith(s[i..], "://")
  }

  /** Without a scheme a target is https exactly when what precedes its first slash ends in `:443`. */
  lemma BareTarget(host: string, path: string)
    requires '/' !in host && (path == "" || path[0] == '/') && NoSchemeBefore(host + path, |host + path|)
    ensures NormalizeScheme(host + path) ==
            Ok((if |host| >= 4 && host[|host| - 4..] == ":443" then "https://" else "http://") + (host + path))
  {
    var raw := host + path;
    FirstSlash(host, path);
    assert raw[..|host|] == host;
  }

  lemma FirstSlash(host: string, path: string)
    requires '/' !in host && (path == "" || path[0] == '/')
    ensures Find(host + path, '/') == |host|
  {
    if path == "" {
      assert host + path == host;
      FindAbsent(host, '/');
    } else {
      assert host + path == host + ['/'] + path[1..];
      FindAfter(host, path[1..], '/');
    }
  }

  /** With a scheme it stands as it is, if that is http or https in any case, and else is refused. */
  lemma SchemedTarget(scheme: string, rest: string)
    requires NoSchemeBefore(scheme + "://" + rest, |scheme|)
    ensures NormalizeScheme(scheme + "://" + rest) ==
            if EqIgnoreCase(scheme, "http") || EqIgnoreCase(scheme, "https") then Ok(scheme + "://" + rest)
            else Err(UnsupportedScheme)
  {
    var raw := scheme + "://" + rest;
    assert raw[|scheme|..] == "://" + rest && raw[..|scheme|] == scheme;
    assert Lower("http") == "http" && Lower("https") == "https";
  }

  // ---------------------------------------------------------- extraction

  lemma {:induction false} SlashesTrimmed(slashes: string, path: string)
    requires (forall c :: c in slashes ==> c == '/') && (path == "" || path[0] != '/')
    ensures TrimSlashes(slashes + path) == path
  {
    if slashes == "" {
      assert slashes + path == path;
    } else {
      assert slashes[0] in slashes && (slashes + path)[1..] == slashes[1..] + path;
      assert forall c :: c in slashes[1..] ==> c in slashes;
      SlashesTrimmed(slashes[1..], path);
    }
  }

  lemma {:induction false} FirstValue(pairs: seq<string>, key: string, v: string)
    requires '=' !in key
    ensures ValueIn(pairs, key) == Some(v) <==>
            exists i :: 0 <= i < |pairs| && pairs[i] == key + "=" + v
                        && forall j :: 0 <= j < i ==> !StartsWith(pairs[j], key + "=")
  {
    if pairs == [] {
    } else {
      PairKeyed(pairs[0], key);
      FirstValue(pairs[1..], key, v);
      if StartsWith(pairs[0], key + "=") {
        assert pairs[0] == key + "=" + pairs[0][|key| + 1..];
      } else {
        FirstValueTail(pairs, key, v);
      }
    }
  }

  lemma PairKeyed(pair: string, key: string)
    requires '=' !in key
    ensures var i := Find(pair, '=');
            i < |pair| && pair[..i] == key <==> StartsWith(pair, key + "=")
    ensures StartsWith(pair, key + "=") ==> Find(pair, '=') == |key|
  {
    if StartsWith(pair, key + "=") {
      KeyedPair(pair, key);
    }
    PairBefore(pair, key);
  }

  lemma KeyedPair(pair: string, key: string)
    requires '=' !in key && StartsWith(pair, key + "=")
    ensures Find(pair, '=') == |key| < |pair| && pair[..|key|] == key
  {
    var rest := pair[|key| + 1..];
    assert pair == key + ['='] + rest;
    FindAfter(key, rest, '=');
  }

  lemma PairBefore(pair: string, key: string)
    ensures var i := Find(pair, '=');
            i < |pair| && pair[..i] == key ==> StartsWith(pair, key + "=")
  {
    var i := Find(pair, '=');
    if i < |pair| && pair[..i] == key {
      CutAt(pair, i);
      FrontStarts(key + ['='], pair[i + 1..]);
    }
  }

  lemma CutAt(s: string, i: nat)
    requires i < |s|
    ensures s == s[..i] + [s[i]] + s[i + 1..]
  {
  }

  lemma FrontStarts(front: string, rest: string)
    ensures StartsWith(front + rest, front)
  {
  }

  lemma FirstValueTail(pairs: seq<string>, key: string, v: string)
    requires pairs != [] && !StartsWith(pairs[0], key + "=")
    ensures (exists i :: 0 <= i < |pairs| && pairs[i] == key + "=" + v
                         && forall j :: 0 <= j < i ==> !StartsWith(pairs[j], key + "=")) <==>
            (exists i :: 0 <= i < |pairs[1..]| && pairs[1..][i] == key + "=" + v
                         && forall j :: 0 <= j < i ==> !StartsWith(pairs[1..][j], key + "="))
  {
    if i :| 0 <= i < |pairs| && pairs[i] == key + "=" + v
            && forall j :: 0 <= j < i ==> !StartsWith(pairs[j], key + "=") {
      assert StartsWith(pairs[i], key + "=") && i > 0;
      assert pairs[1..][i - 1] == pairs[i];
    }
    if i :| 0 <= i < |pairs[1..]| && pairs[1..][i] == key + "=" + v
            && forall j :: 0 <= j < i ==> !StartsWith(pairs[1..][j], key + "=") {
      assert pairs[i + 1] == pairs[1..][i];
      assert forall j :: 0 < j < i + 1 ==> pairs[j] == pairs[1..][j - 1];
    }
  }

  /** The value of the first piece of the query that is keyed `url`, if there is one. */
  ghost predicate UrlPair(query: string, v: string) {
    var pieces := Split(query, '&');
    exists i :: 0 <= i < |pieces| && pieces[i] == "url=" + v
                && forall j :: 0 <= j < i ==> !StartsWith(pieces[j], "url=")
  }

  /** What is to be decoded: the `url` pair, or the path without its leading slashes and the query. */
  lemma CandidateExactly(slashes: string, path: string, query: Option<string>)
    requires (forall c :: c in slashes ==> c == '/') && (path == "" || path[0] != '/')
    ensures forall v :: query.Some? && UrlPair(query.value, v) ==> Candidate(slashes + path, query) == Ok(v)
    ensures query.None? || (forall v :: !UrlPair(query.value, v)) ==>
              Candidate(slashes + path, query) ==
              if path == "" then Err(NoTarget)
              else if query.Some? then Ok(path + "?" + query.value) else Ok(path)
  {
    SlashesTrimmed(slashes, path);
    if query.Some? {
      assert "url" + "=" == "url=";
      forall v
        ensures FindQueryValue(query.value, "url") == Some(v) <==> UrlPair(query.value, v)
      {
        FirstValue(Split(query.value, '&'), "url", v);
      }
      assert path + ("?" + query.value) == path + "?" + query.value;
    } else {
      assert path + "" == path;
    }
  }

  /** A request line names what its path and query name; a fragment is no part of it. */
  lemma ExtractedExactly(utf8: string -> bool, path: string, query: Option<string>, fragment: string)
    requires '?' !in path && '#' !in path && (query.Some? ==> '#' !in query.value)
    ensures var line := path + (if query.Some? then "?" + query.value else "");
            && Extracted(utf8, line) == Extracted(utf8, line + "#" + fragment)
            && Extracted(utf8, line) == match Candidate(path, query)
               case Err(e) => Err(e)
               case Ok(text) => if utf8(Decoded(text)) then NormalizeScheme(Decoded(text)) else Err(InvalidUtf8)
  {
    var line := path + (if query.Some? then "?" + query.value else "");
    FragmentDropped(line, fragment);
    PathAndQueryOf(path, query);
  }

  lemma FragmentDropped(line: string, fragment: string)
    requires '#' !in line
    ensures BeforeFragment(line) == BeforeFragment(line + "#" + fragment) == line
  {
    FindAbsent(line, '#');
    FindAfter(line, fragment, '#');
    assert line + "#" + fragment == line + ['#'] + fragment;
    assert (line + ['#'] + fragment)[..|line|] == line && line[..|line|] == line;
  }

  lemma PathAndQueryOf(path: string, query: Option<string>)
    requires '?' !in path
    ensures var line := path + (if query.Some? then "?" + query.value else "");
            PathOf(line) == path && QueryOf(line) == query
  {
    var line := path + (if query.Some? then "?" + query.value else "");
    if query.Some? {
      assert line == path + ['?'] + query.value;
      FindAfter(path, query.value, '?');
      assert line[..|path|] == path && line[|path| + 1..] == query.value;
    } else {
      assert line == path;
      FindAbsent(path, '?');
      assert path[..|path|] == path;
    }
  }

  lemma FindAbsent(s: string, c: char)
    requires c !in s
    ensures Find(s, c) == |s|
  {
  }

  lemma FindAfter(a: string, b: string, c: char)
    requires c !in a
    ensures Find(a + [c] + b, c) == |a|
  {
    var s := a + [c] + b;
    assert s[|a|] == c && s[..|a|] == a;
  }

  const UPPER_DIGITS := "0123456789ABCDEF"
  const LOWER_DIGITS := "0123456789abcdef"

  /** The escape of a byte, with the given digits. */
  function Escape(c: char, digits: string): string
    requires c as int < 256 && |digits| == 16
  {
    ['%', digits[c as int / 16], digits[c as int % 16]]
  }

  /** Every byte escaped, each with digits of its own case. */
  function Escaped(s: string, upper: nat -> bool): string
    requires forall c :: c in s ==> c as int < 256
  {
    if s == [] then []
    else
      assert s[0] in s && forall c :: c in s[1..] ==> c in s;
      Escape(s[0], if upper(|s|) then UPPER_DIGITS else LOWER_DIGITS) + Escaped(s[1..], upper)
  }

  lemma DigitValue(n: nat)
    requires n < 16
    ensures HexValue(UPPER_DIGITS[n]) == Some(n) && HexValue(LOWER_DIGITS[n]) == Some(n)
  {
  }

  lemma TwoDigits(a: char, b: char, hi: nat, lo: nat, rest: string)
    requires hi < 16 && lo < 16 && HexValue(a) == Some(hi) && HexValue(b) == Some(lo)
    ensures Decoded(['%', a, b] + rest) == [(16 * hi + lo) as char] + Decoded(rest)
  {
    var s := ['%', a, b] + rest;
    assert s[0] == '%' && s[1] == a && s[2] == b && s[3..] == rest;
  }

  lemma EscapeDecodes(c: char, digits: string, rest: string)
    requires c as int < 256 && digits in {UPPER_DIGITS, LOWER_DIGITS}
    ensures Decoded(Escape(c, digits) + rest) == [c] + Decoded(rest)
  {
    var hi, lo := c as int / 16, c as int % 16;
    DigitValue(hi);
    DigitValue(lo);
    TwoDigits(digits[hi], digits[lo], hi, lo, rest);
    assert (16 * hi + lo) as char == c;
  }

  /** Decoding undoes the escaping of any bytes, in digits of either case. */
  lemma {:induction false} DecodedEscaped(s: string, upper: nat -> bool)
    requires forall c :: c in s ==> c as int < 256
    ensures Decoded(Escaped(s, upper)) == s
  {
    if s == [] {
    } else {
      assert s[0] in s && forall c :: c in s[1..] ==> c in s;
      EscapeDecodes(s[0], if upper(|s|) then UPPER_DIGITS else LOWER_DIGITS, Escaped(s[1..], upper));
      DecodedEscaped(s[1..], upper);
    }
  }

  // --------------------------------------------------------- round trip

  lemma {:induction false} DecodedLength(s: string)
    ensures HasEscape(s) ==> |Decoded(s)| < |s|
    ensures !HasEscape(s) ==> Decoded(s) == s
  {
    if s == [] {
    } else {
      if EscapeAt(s, 0) {
        DecodedLength(s[3..]);
      } else {
        DecodedLength(s[1..]);
        if i :| 0 <= i < |s| && EscapeAt(s, i) {
          assert EscapeAt(s[1..], i - 1);
        }
        if i :| 0 <= i < |s| - 1 && EscapeAt(s[1..], i) {
          assert EscapeAt(s, i + 1);
        }
        assert s == [s[0]] + s[1..];
      }
    }
  }

  lemma {:induction false} DecodedKeepsPrefix(p: string, s: string)
    requires '%' !in p
    ensures Decoded(p + s) == p + Decoded(s)
  {
    if p == [] {
      assert p + s == s;
    } else {
      assert p[0] in p && (p + s)[1..] == p[1..] + s;
      DecodedKeepsPrefix(p[1..], s);
      assert p + Decoded(s) == [p[0]] + (p[1..] + Decoded(s));
    }
  }

  lemma DecodedKeepsScheme(s: string)
    requires HasHttpScheme(s)
    ensures HasHttpScheme(Decoded(s))
  {
    var p := if StartsWith(s, "http://") then "http://" else "https://";
    assert s == p + s[|p|..];
    DecodedKeepsPrefix(p, s[|p|..]);
  }

  lemma {:induction false} PieceLength(s: string, sep: char, i: nat)
    requires i < |Split(s, sep)|
    ensures |Split(s, sep)[i]| <= |s|
  {
    if s == [] {
    } else {
      var rest := Split(s[1..], sep);
      var j := if i == 0 then 0 else if s[0] == sep then i - 1 else i;
      PieceLength(s[1..], sep, j);
    }
  }

  /** A `url` pair is at least twelve characters shorter than the absolute text it sits in. */
  lemma UrlPairIsShort(s: string)
    requires HasHttpScheme(s) && HasUrlPair(s)
    ensures |FindQueryValue(QueryOf(s).value, "url").value| + 12 <= |s|
  {
    var query := QueryOf(s).value;
    var pairs, v := Split(query, '&'), FindQueryValue(query, "url").value;
    var i :| 0 <= i < |pairs| && pairs[i] == "url" + "=" + v;
    PieceLength(query, '&', i);
    NoQuestionInScheme(s);
  }

  lemma NoQuestionInScheme(s: string)
    requires HasHttpScheme(s)
    ensures Find(s, '?') >= 7 && Find(s, '#') >= 7
  {
    forall i | 0 <= i < 7
      ensures s[i] != '?' && s[i] != '#'
    {
    }
  }

  lemma FindAfterSlash(s: string, c: char)
    requires c != '/'
    ensures Find("/" + s, c) == Find(s, c) + 1
  {
  }

  lemma SchemeBeforeFragment(raw: string)
    requires HasHttpScheme(raw)
    ensures BeforeFragment("/" + raw) == "/" + BeforeFragment(raw)
    ensures HasHttpScheme(BeforeFragment(raw))
  {
    FindAfterSlash(raw, '#');
    var n := Find(raw, '#');
    SliceAfterSlash(raw, n);
    SchemeKept(raw, n);
  }

  lemma SchemeKept(raw: string, n: nat)
    requires HasHttpScheme(raw) && n == Find(raw, '#')
    ensures HasHttpScheme(raw[..n])
  {
    NoQuestionInScheme(raw);
    if StartsWith(raw, "https://") {
      assert raw[7] == '/' && n != 7;
      assert raw[..n][..8] == raw[..8];
    } else {
      assert raw[..n][..7] == raw[..7];
    }
  }

  lemma SliceAfterSlash(s: string, n: nat)
    requires n <= |s|
    ensures ("/" + s)[..n + 1] == "/" + s[..n]
    ensures n < |s| ==> ("/" + s)[n + 2..] == s[n + 1..]
  {
  }

  lemma PathAfterSlash(base: string)
    requires HasHttpScheme(base)
    ensures PathOf("/" + base) == "/" + PathOf(base)
    ensures PathOf(base) != "" && PathOf(base)[0] != '/'
  {
    FindAfterSlash(base, '?');
    NoQuestionInScheme(base);
    SliceAfterSlash(base, Find(base, '?'));
    assert PathOf(base)[0] == base[0];
  }

  lemma QueryAfterSlash(base: string)
    requires HasHttpScheme(base)
    ensures QueryOf("/" + base) == QueryOf(base)
  {
    FindAfterSlash(base, '?');
    SliceAfterSlash(base, Find(base, '?'));
  }

  /** A slash put before an absolute text goes to its path, and the trim takes it off again. */
  lemma SplitAfterSlash(base: string)
    requires HasHttpScheme(base)
    ensures QueryOf("/" + base) == QueryOf(base)
    ensures TrimSlashes(PathOf("/" + base)) == PathOf(base) != ""
  {
    PathAfterSlash(base);
    QueryAfterSlash(base);
    TrimOneSlash(PathOf(base));
  }

  lemma TrimOneSlash(s: string)
    requires s != "" && s[0] != '/'
    ensures TrimSlashes("/" + s) == s
  {
  }

  predicate HasUrlPair(s: string) {
    QueryOf(s).Some? && FindQueryValue(QueryOf(s).value, "url").Some?
  }

  lemma PathThenQuery(base: string)
    ensures base == PathOf(base) + if QueryOf(base).Some? then "?" + QueryOf(base).value else ""
  {
  }

  /** What a proxied absolute text is extracted from: its `url` pair, or all of it. */
  lemma CandidateOfProxied(base: string)
    requires HasHttpScheme(base)
    ensures Candidate(PathOf("/" + base), QueryOf("/" + base)) ==
            Ok(if HasUrlPair(base) then FindQueryValue(QueryOf(base).value, "url").value else base)
  {
    SplitAfterSlash(base);
    PathThenQuery(base);
  }

  /**
   Rewrite round trip: following a rewritten Location names the original text again if and
   only if it has no fragment, no query pair keyed `url` and no percent escape.
   */
  lemma RoundTripExactly(utf8: string -> bool, raw: string)
    requires Readable(raw) && HasHttpScheme(raw)
    requires forall s: string :: Readable(s) ==> utf8(s)
    ensures Extracted(utf8, Rewritten(raw)) == Ok(raw) <==>
              && '#' !in raw
              && !HasUrlPair(raw)
              && !HasEscape(raw)
  {
    var base := BeforeFragment(raw);
    SchemeBeforeFragment(raw);
    CandidateOfProxied(base);
    assert '#' !in raw <==> base == raw;
    if HasUrlPair(base) {
      ShorterThroughPair(base);
    } else {
      DecodedLength(base);
      DecodedKeepsScheme(base);
      HttpSchemeIsNormal(Decoded(base));
    }
  }

  lemma ShorterThroughPair(base: string)
    requires HasHttpScheme(base) && HasUrlPair(base)
    ensures var r := NormalizeScheme(Decoded(FindQueryValue(QueryOf(base).value, "url").value));
            r.Ok? ==> |r.value| < |base|
  {
    var v := FindQueryValue(QueryOf(base).value, "url").value;
    UrlPairIsShort(base);
    DecodedLength(v);
    if NormalizeScheme(Decoded(v)).Ok? {
      NormalLength(Decoded(v));
    }
  }

  lemma NormalLength(s: string)
    requires NormalizeScheme(s).Ok?
    ensures |NormalizeScheme(s).value| <= |s| + 8
  {
  }
}
