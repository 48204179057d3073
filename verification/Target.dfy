/** Which upstream hosts and schemes a request, and every redirect hop, may name. */
module Target {
  import opened Wrappers
  import opened Text

  datatype Mode = AnyPublic | Allowlist | Denylist

  datatype TargetConfig = TargetConfig(mode: Mode, hosts: seq<string>, schemes: seq<string>, httpsOnly: bool)

  datatype TargetPolicy = TargetPolicy(mode: Mode, hosts: seq<string>, schemes: seq<string>, httpsOnly: bool)

  datatype Rejection = TargetNotAllowed | InvalidUrl

  /** The authority as written, and the host the URI library reads from it. */
  datatype Authority = Authority(text: string, host: string)

  datatype Uri = Uri(scheme: Option<string>, authority: Option<Authority>, pathAndQuery: string)

  function Normalized(raw: seq<string>): seq<string> {
    seq(|raw|, i requires 0 <= i < |raw| => Lower(Trim(raw[i])))
  }

  function NonEmpty(hosts: seq<string>): (r: seq<string>)
    ensures forall h :: h in r <==> h in hosts && h != ""
  {
    if hosts == [] then []
    else (if hosts[0] == "" then [] else [hosts[0]]) + NonEmpty(hosts[1..])
  }

  function FromConfig(cfg: TargetConfig): TargetPolicy {
    TargetPolicy(cfg.mode, NonEmpty(Normalized(cfg.hosts)),
                 if cfg.schemes == [] then ["https", "http"] else Normalized(cfg.schemes), cfg.httpsOnly)
  }

  predicate HostMatches(pattern: string, host: string) {
    if StartsWith(pattern, ".") then host == pattern[1..] || EndsWith(host, pattern) else host == pattern
  }

  predicate Matched(p: TargetPolicy, host: string) {
    exists i :: 0 <= i < |p.hosts| && HostMatches(p.hosts[i], Lower(host))
  }

  predicate SchemeAdmitted(p: TargetPolicy, scheme: string) {
    (p.httpsOnly ==> Lower(scheme) == "https") && Lower(scheme) in p.schemes
  }

  function CheckAuthority(p: TargetPolicy, scheme: string, host: string): Result<(), Rejection> {
    if p.httpsOnly && Lower(scheme) != "https" then Err(TargetNotAllowed)
    else if Lower(scheme) !in p.schemes then Err(TargetNotAllowed)
    else
      match p.mode
      case AnyPublic => Ok(())
      case Allowlist =>
        if p.hosts == [] then Err(TargetNotAllowed)
        else if Matched(p, host) then Ok(())
        else Err(TargetNotAllowed)
      case Denylist =>
        if Matched(p, host) then Err(TargetNotAllowed) else Ok(())
  }

  function CheckUri(p: TargetPolicy, uri: Uri): Result<(), Rejection> {
    if uri.scheme.None? || uri.authority.None? then Err(InvalidUrl)
    else CheckAuthority(p, uri.scheme.value, uri.authority.value.host)
  }

  // ------------------------------------------------ what host patterns mean

  function Labels(s: string): seq<string> {
    Split(s, '.')
  }

  predicate LabelSuffix(tail: seq<string>, labels: seq<string>) {
    |tail| <= |labels| && labels[|labels| - |tail|..] == tail
  }

  lemma EndsByLabels(suffix: string, host: string)
    requires EndsWith(host, "." + suffix)
    ensures LabelSuffix(Labels(suffix), Labels(host))
  {
    var front := host[..|host| - |suffix| - 1];
    assert host == front + ['.'] + suffix;
    SplitAround(front, suffix, '.');
  }

  lemma EndsWithDot(front: string, suffix: string)
    ensures EndsWith(front + ['.'] + suffix, "." + suffix)
  {
  }

  lemma SuffixSplit<T>(s: seq<T>, tail: seq<T>) returns (front: seq<T>)
    requires |tail| <= |s| && s[|s| - |tail|..] == tail
    ensures s == front + tail && (front == [] ==> s == tail)
  {
    front := s[..|s| - |tail|];
  }

  lemma LabelsEnd(suffix: string, host: string)
    requires LabelSuffix(Labels(suffix), Labels(host))
    ensures host == suffix || EndsWith(host, "." + suffix)
  {
    var tail, labels := Labels(suffix), Labels(host);
    JoinSplit(host, '.');
    JoinSplit(suffix, '.');
    var front := SuffixSplit(labels, tail);
    if front != [] {
      JoinAround(front, tail, '.');
      EndsWithDot(Join(front, '.'), suffix);
    }
  }

  /** `.suffix` matches exactly the hosts whose last labels are the labels of `suffix`. */
  lemma SuffixPatternByLabels(suffix: string, host: string)
    ensures HostMatches("." + suffix, host) <==> LabelSuffix(Labels(suffix), Labels(host))
  {
    assert ("." + suffix)[1..] == suffix;
    if EndsWith(host, "." + suffix) {
      EndsByLabels(suffix, host);
    }
    if LabelSuffix(Labels(suffix), Labels(host)) {
      LabelsEnd(suffix, host);
    }
  }

  /** An exact pattern matches exactly the hosts with the same labels. */
  lemma ExactPatternByLabels(pattern: string, host: string)
    requires !StartsWith(pattern, ".")
    ensures HostMatches(pattern, host) <==> Labels(pattern) == Labels(host)
  {
    JoinSplit(host, '.');
    JoinSplit(pattern, '.');
  }

  /** On an admitted scheme, allowlist and denylist with the same hosts are complements. */
  lemma AllowAndDenyAreComplements(p: TargetPolicy, scheme: string, host: string)
    ensures SchemeAdmitted(p, scheme) ==>
              (CheckAuthority(p.(mode := Allowlist), scheme, host).Ok? <==>
               CheckAuthority(p.(mode := Denylist), scheme, host).Err?)
    ensures !SchemeAdmitted(p, scheme) ==> CheckAuthority(p, scheme, host).Err?
  {
  }

  /** The verdict ignores the ASCII case of the scheme and of the host. */
  lemma VerdictIgnoresCase(p: TargetPolicy, s1: string, h1: string, s2: string, h2: string)
    requires EqIgnoreCase(s1, s2) && EqIgnoreCase(h1, h2)
    ensures CheckAuthority(p, s1, h1) == CheckAuthority(p, s2, h2)
  {
  }

  /** A compiled allowlist admits a host exactly when a configured entry names it by labels. */
  lemma AllowlistByLabels(cfg: TargetConfig, scheme: string, host: string)
    requires cfg.mode == Allowlist && SchemeAdmitted(FromConfig(cfg), scheme)
    ensures CheckAuthority(FromConfig(cfg), scheme, host).Ok? <==>
            exists i :: 0 <= i < |cfg.hosts| && EntryNames(Lower(Trim(cfg.hosts[i])), Lower(host))
  {
    if HostListed(cfg, host) {
      ListedMatches(cfg, host);
    }
    if Matched(FromConfig(cfg), host) {
      MatchedIsListed(cfg, host);
    }
  }

  lemma PatternByLabels(pattern: string, host: string)
    requires pattern != ""
    ensures HostMatches(pattern, host) <==> EntryNames(pattern, host)
  {
    if StartsWith(pattern, ".") {
      assert pattern == "." + pattern[1..];
      SuffixPatternByLabels(pattern[1..], host);
    } else {
      ExactPatternByLabels(pattern, host);
    }
  }

  lemma ListedMatches(cfg: TargetConfig, host: string)
    requires exists i :: 0 <= i < |cfg.hosts| && EntryNames(Lower(Trim(cfg.hosts[i])), Lower(host))
    ensures Matched(FromConfig(cfg), host)
  {
    var p, raw := FromConfig(cfg), Normalized(cfg.hosts);
    var i :| 0 <= i < |cfg.hosts| && EntryNames(Lower(Trim(cfg.hosts[i])), Lower(host));
    PatternByLabels(raw[i], Lower(host));
    assert raw[i] in p.hosts;
    var j :| 0 <= j < |p.hosts| && p.hosts[j] == raw[i];
  }

  lemma MatchedIsListed(cfg: TargetConfig, host: string)
    requires Matched(FromConfig(cfg), host)
    ensures exists i :: 0 <= i < |cfg.hosts| && EntryNames(Lower(Trim(cfg.hosts[i])), Lower(host))
  {
    var p, raw := FromConfig(cfg), Normalized(cfg.hosts);
    var j :| 0 <= j < |p.hosts| && HostMatches(p.hosts[j], Lower(host));
    assert p.hosts[j] in raw && p.hosts[j] != "";
    PatternByLabels(p.hosts[j], Lower(host));
    var i :| 0 <= i < |raw| && raw[i] == p.hosts[j];
    assert EntryNames(Lower(Trim(cfg.hosts[i])), Lower(host));
  }

  /** The scheme may be used: it is listed, or http or https when none is, and https where only that is. */
  ghost predicate SchemeListed(cfg: TargetConfig, scheme: string) {
    && (cfg.httpsOnly ==> EqIgnoreCase(scheme, "https"))
    && if cfg.schemes == [] then EqIgnoreCase(scheme, "http") || EqIgnoreCase(scheme, "https")
       else exists i :: 0 <= i < |cfg.schemes| && EqIgnoreCase(Trim(cfg.schemes[i]), scheme)
  }

  ghost predicate HostListed(cfg: TargetConfig, host: string) {
    exists i :: 0 <= i < |cfg.hosts| && EntryNames(Lower(Trim(cfg.hosts[i])), Lower(host))
  }

  lemma SchemeCompiled(cfg: TargetConfig, scheme: string)
    ensures SchemeAdmitted(FromConfig(cfg), scheme) <==> SchemeListed(cfg, scheme)
  {
    assert Lower("http") == "http" && Lower("https") == "https";
    var raw := Normalized(cfg.schemes);
    assert forall i :: 0 <= i < |raw| ==> raw[i] == Lower(Trim(cfg.schemes[i])) && raw[i] in raw;
  }

  lemma ListCompiled(cfg: TargetConfig, host: string)
    ensures Matched(FromConfig(cfg), host) <==> HostListed(cfg, host)
  {
    var lenient := cfg.(mode := Allowlist, schemes := [], httpsOnly := false);
    SchemeCompiled(lenient, "http");
    AllowlistByLabels(lenient, "http", host);
  }

  /** The whole policy, from the configuration: any public host, those listed, or all but those. */
  lemma PolicyExactly(cfg: TargetConfig, scheme: string, host: string)
    ensures CheckAuthority(FromConfig(cfg), scheme, host) in {Ok(()), Err(TargetNotAllowed)}
    ensures CheckAuthority(FromConfig(cfg), scheme, host).Ok? <==>
              && SchemeListed(cfg, scheme)
              && match cfg.mode
                 case AnyPublic => true
                 case Allowlist => HostListed(cfg, host)
                 case Denylist => !HostListed(cfg, host)
  {
    SchemeCompiled(cfg, scheme);
    ListCompiled(cfg, host);
  }

  /** A hop's URI is judged by its scheme and its authority's host, and invalid without either. */
  lemma UriPolicyExactly(cfg: TargetConfig, uri: Uri)
    ensures CheckUri(FromConfig(cfg), uri) == Err(InvalidUrl) <==> uri.scheme == None || uri.authority == None
    ensures CheckUri(FromConfig(cfg), uri).Ok? <==>
              && uri.scheme.Some? && uri.authority.Some? && SchemeListed(cfg, uri.scheme.value)
              && match cfg.mode
                 case AnyPublic => true
                 case Allowlist => HostListed(cfg, uri.authority.value.host)
                 case Denylist => !HostListed(cfg, uri.authority.value.host)
  {
    if uri.scheme.Some? && uri.authority.Some? {
      PolicyExactly(cfg, uri.scheme.value, uri.authority.value.host);
    }
  }

  predicate EntryNames(entry: string, host: string) {
    entry != "" &&
    if StartsWith(entry, ".") then LabelSuffix(Labels(entry[1..]), Labels(host)) else Labels(entry) == Labels(host)
  }
}
