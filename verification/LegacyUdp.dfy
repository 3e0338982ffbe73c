/**
 The old syntax for UDP, udp://host:remote_port:local_port, and its rewriting.
 */
module LegacyUdp {
  import opened Uris

  /** Where the last `c` is. */
  function FindLast(t: string, c: char): (n: nat)
    ensures n <= |t|
  {
    if t == [] then 0
    else
      var n := |t| - 1;
      if t[n] == c then n else if FindLast(t[..n], c) == n then n + 1 else FindLast(t[..n], c)
  }

  lemma {:induction false} FindLastBefore(a: string, c: char, b: string)
    requires Free(b, {c})
    ensures FindLast(a + [c] + b, c) == |a|
    decreases |b|
  {
    var t := a + [c] + b;
    if b != [] {
      var n := |b| - 1;
      assert t[..|t| - 1] == a + [c] + b[..n];
      assert b[n] in b;
      FindLastBefore(a, c, b[..n]);
    }
  }

  const NEW_STYLE := {'?', '&', '='}

  function Rewritten(uri: string, lastColon: nat): string
    requires lastColon < |uri|
  {
    uri[..lastColon] + "?local_port=" + uri[lastColon + 1..]
  }

  function ParseUdp(uri: string): Parsed<Uri>
    requires |uri| >= 6
  {
    if Find(uri, NEW_STYLE) < |uri| then Parse(uri)
    else
      var firstColon, lastColon := FindFrom(uri, {':'}, 6), FindLast(uri, ':');
      if firstColon == lastColon || lastColon == |uri| then Parse(uri)
      else Parse(Rewritten(uri, lastColon))
  }

  predicate Old(t: string) {
    Free(t, NEW_STYLE)
  }

  predicate NoColon(t: string) {
    Free(t, {':'})
  }

  lemma FreeSum(a: string, b: string, cs: set<char>)
    ensures Free(a + b, cs) <==> Free(a, cs) && Free(b, cs)
  {
  }

  lemma FindNothing(t: string, cs: set<char>)
    requires Free(t, cs)
    ensures Find(t, cs) == |t|
  {
  }

  lemma OldIsOld(x: string)
    requires Old(x)
    ensures Find("udp://" + x, NEW_STYLE) == |"udp://" + x|
  {
  }

  lemma FirstColon(x: string)
    ensures FindFrom("udp://" + x, {':'}, 6) == 6 + Find(x, {':'})
  {
  }

  /** A string with any of '?', '&' and '=' is parsed as it is. */
  lemma NewStyleUnchanged(uri: string)
    requires |uri| >= 6 && !Free(uri, NEW_STYLE)
    ensures ParseUdp(uri) == Parse(uri)
  {
  }

  /** So is one with a single port. */
  lemma OnePortUnchanged(host: string, port: string)
    requires Old(host) && NoColon(host) && Old(port) && NoColon(port)
    ensures ParseUdp("udp://" + (host + (":" + port))) == Parse("udp://" + (host + (":" + port)))
  {
    hide Find, Free, FindLast, Parse;
    var x := host + (":" + port);
    FreeSum(":", port, NEW_STYLE);
    FreeSum(host, ":" + port, NEW_STYLE);
    ColonIsOld();
    OldIsOld(x);
    FirstColon(x);
    FindBehind(host, ":" + port, {':'});
    FindLastBefore("udp://" + host, ':', port);
    assert "udp://" + x == ("udp://" + host) + [':'] + port;
  }

  lemma ColonIsOld()
    ensures Old(":")
  {
  }

  lemma PortsAreOld(host: string, ports: string, local: string)
    requires Old(host) && Old(ports) && Old(local)
    ensures Old(host + (":" + (ports + (":" + local))))
  {
  }

  lemma Regroup(host: string, ports: string, mark: string, local: string)
    ensures "udp://" + (host + (":" + (ports + (mark + local)))) == ("udp://" + (host + (":" + ports))) + mark + local
  {
  }

  /** With two or more colons the last one introduces the local port. */
  lemma LocalPortRewritten(host: string, ports: string, local: string)
    requires Old(host) && NoColon(host) && Old(ports) && Old(local) && NoColon(local)
    ensures ParseUdp("udp://" + (host + (":" + (ports + (":" + local)))))
         == Parse("udp://" + (host + (":" + (ports + ("?local_port=" + local)))))
  {
    hide Find, Free, FindLast, Parse, Rewritten;
    var rest := ports + (":" + local);
    var x, before := host + (":" + rest), "udp://" + (host + (":" + ports));
    PortsAreOld(host, ports, local);
    OldIsOld(x);
    FirstColon(x);
    FindBehind(host, ":" + rest, {':'});
    FindLastBefore(before, ':', local);
    Regroup(host, ports, ":", local);
    Regroup(host, ports, "?local_port=", local);
    RewrittenAt(before, local);
  }

  lemma RewrittenAt(before: string, local: string)
    ensures Rewritten(before + [':'] + local, |before|) == before + "?local_port=" + local
  {
  }

  /** Without any port the scheme's colon is taken for the local port's, and what the parser would accept is
      rejected. */
  lemma NoPortRejected(host: string)
    requires Old(host) && NoColon(host)
    ensures ParseUdp("udp://" + host) == Err(NoScheme)
    ensures Parse("udp://" + host) == Ok(Uri("udp", host, 0, map[]))
  {
    hide Find, Free, FindLast, ParseOptions, Stoi, ParseHost;
    OldIsOld(host);
    FirstColon(host);
    FindNothing(host, {':'});
    SlashesHaveNoColon(host);
    FindLastBefore("udp", ':', "//" + host);
    assert "udp://" + host == "udp" + [':'] + ("//" + host);
    RewrittenAt("udp", "//" + host);
    var rewritten := "udp" + "?local_port=" + ("//" + host);
    FindNothing(rewritten, {':'});
    HostAlone(host);
  }

  lemma SlashesHaveNoColon(host: string)
    requires NoColon(host)
    ensures Free("//" + host, {':'}) && Free("udp" + "?local_port=" + ("//" + host), {':'})
  {
  }

  lemma HostAlone(host: string)
    requires Old(host) && NoColon(host)
    ensures Parse("udp://" + host) == Ok(Uri("udp", host, 0, map[]))
  {
    hide Find, ParseOptions, Stoi;
    assert "udp://" + host == "udp" + ("://" + host);
    SchemeParses("udp", host);
    HostParses("udp", host, "");
    assert host + "" == host;
  }

  // What the old syntax means -----------------------------------------------------------------------

  predicate IsNumber(t: string) {
    Stoi(t).Converted? && Stoi(t).size == |t|
  }

  lemma StoiStops(t: string, i: nat)
    requires Stoi(t).Converted? && i < Stoi(t).size
    ensures t[i] in BLANKS || t[i] in {'+', '-'} || t[i] in DIGITS
  {
  }

  /** A port without '?' is accepted exactly if it is a number, whatever options come behind it. */
  lemma PortAcceptedIffNumber(scheme: string, host: string, text: string, options: seq<Pair>)
    requires Old(text) && forall o <- options :: WellFormedPair(o)
    ensures ParsePort(scheme, host, text + RenderTail(options)).Ok? <==> IsNumber(text)
    ensures IsNumber(text) ==>
      ParsePort(scheme, host, text + RenderTail(options))
      == Ok(Uri(scheme, host, Stoi(text).n, Collect(options, map[])))
  {
    hide Stoi, ParseOptions, RenderOptions, Collect;
    var tail := RenderTail(options);
    if IsNumber(text) {
      PortParses(scheme, host, text, options);
    } else if Stoi(text + tail).Converted? {
      NumberEndsEarly(text, tail);
    }
  }

  lemma NumberEndsEarly(text: string, tail: string)
    requires Old(text) && !IsNumber(text) && (tail == "" || tail[0] == '?') && Stoi(text + tail).Converted?
    ensures var size := Stoi(text + tail).size;
            size < |text| && (text + tail)[size] != '?' && size != |text + tail|
  {
    hide Stoi;
    var t := text + tail;
    assert t[..|text|] == text;
    StoiToken(t);
    NumberWithin(text, tail);
    assert t[Stoi(t).size] in text;
  }

  lemma NumberWithin(text: string, tail: string)
    requires (tail == "" || tail[0] == '?') && Stoi(text + tail).Converted?
    ensures Stoi(text + tail).size <= |text|
  {
    hide Stoi;
    if Stoi(text + tail).size > |text| {
      StoiStops(text + tail, |text|);
    }
  }

  /** What follows the host. */
  lemma HostThenPort(host: string, port: string)
    requires Old(host) && NoColon(host)
    ensures Parse("udp://" + (host + (":" + port))) == ParsePort("udp", host, port)
  {
    hide Find, ParsePort, ParseHost, Parse;
    var behind := host + (":" + port);
    assert "udp://" + behind == "udp" + ("://" + behind);
    SchemeParses("udp", behind);
    HostParses("udp", host, ":" + port);
    assert (":" + port)[1..] == port;
  }

  const LOCAL_PORT := "local_port"

  /** The old syntax with a local port is accepted exactly if the remote port is a number, and means what the
      new syntax does. */
  lemma LocalPortMeaning(host: string, ports: string, local: string)
    requires Old(host) && NoColon(host) && Old(ports) && Old(local) && NoColon(local)
    ensures var r := ParseUdp("udp://" + (host + (":" + (ports + (":" + local)))));
            && (r.Ok? <==> IsNumber(ports))
            && (r.Ok? ==> r.value == Uri("udp", host, Stoi(ports).n, map[LOCAL_PORT := local]))
  {
    hide Stoi, ParseOptions, ParsePort, Parse, ParseUdp, Find;
    LocalPortRewritten(host, ports, local);
    var options := [Pair(LOCAL_PORT, local)];
    LocalPortIsWellFormed(local);
    LocalPortTail(local);
    HostThenPort(host, ports + ("?local_port=" + local));
    PortAcceptedIffNumber("udp", host, ports, options);
  }

  lemma LocalPortIsWellFormed(local: string)
    requires Old(local)
    ensures WellFormedPair(Pair(LOCAL_PORT, local))
  {
  }

  lemma LocalPortTail(local: string)
    ensures RenderTail([Pair(LOCAL_PORT, local)]) == "?local_port=" + local
    ensures Collect([Pair(LOCAL_PORT, local)], map[]) == map[LOCAL_PORT := local]
  {
    RenderPair(Pair(LOCAL_PORT, local), []);
    CollectPair(Pair(LOCAL_PORT, local), [], map[]);
    NoOptions(map[LOCAL_PORT := local]);
    assert [Pair(LOCAL_PORT, local)] + [] == [Pair(LOCAL_PORT, local)];
    assert "?" + (LOCAL_PORT + ("=" + (local + ""))) == "?local_port=" + local;
    hide RenderOptions, Collect;
  }

  lemma OnePortMeaning(host: string, port: string)
    requires Old(host) && NoColon(host) && Old(port) && NoColon(port)
    ensures var r := ParseUdp("udp://" + (host + (":" + port)));
            && (r.Ok? <==> IsNumber(port))
            && (r.Ok? ==> r.value == Uri("udp", host, Stoi(port).n, map[]))
  {
    hide Stoi, ParseOptions, ParsePort, Parse, ParseUdp, Find;
    OnePortUnchanged(host, port);
    HostThenPort(host, port);
    PortAcceptedIffNumber("udp", host, port, []);
    NoOptions(map[]);
    assert port + "" == port;
  }

  lemma SplitAtColon(t: string, n: nat)
    requires n < |t| && t[n] == ':'
    ensures t == t[..n] + (":" + t[n + 1..])
    ensures Old(t) ==> Old(t[..n]) && Old(t[n + 1..])
  {
  }

  /** Every string in the old syntax is one of the three. */
  lemma OldSyntaxCases(x: string) returns (host: string, ports: string, local: string)
    requires Old(x)
    ensures Old(host) && NoColon(host) && Old(ports) && Old(local) && NoColon(local)
    ensures x == host || (NoColon(ports) && x == host + (":" + ports)) || x == host + (":" + (ports + (":" + local)))
  {
    hide Find, Free, FindLast;
    var n := Find(x, {':'});
    FreeBeforeFind(x, {':'});
    FreeNothing(NEW_STYLE);
    FreeNothing({':'});
    FoundColon(x);
    if n == |x| {
      assert x[..n] == x;
      host, ports, local := x, "", "";
    } else {
      SplitAtColon(x, n);
      host, ports, local := x[..n], x[n + 1..], "";
      var m := FindLast(ports, ':');
      LastColon(ports);
      if m < |ports| {
        SplitAtColon(ports, m);
        ports, local := ports[..m], ports[m + 1..];
      }
    }
  }

  lemma FoundColon(x: string)
    ensures Find(x, {':'}) < |x| ==> x[Find(x, {':'})] == ':'
  {
  }

  lemma {:induction false} LastColon(t: string)
    ensures var m := FindLast(t, ':'); if m == |t| then NoColon(t) else t[m] == ':' && NoColon(t[m + 1..])
    decreases |t|
  {
    if t != "" {
      var n := |t| - 1;
      LastColon(t[..n]);
      var m := FindLast(t[..n], ':');
      if t[n] != ':' {
        if m == n {
          assert t == t[..n] + [t[n]];
        } else {
          assert t[m + 1..] == t[..n][m + 1..] + [t[n]];
        }
      }
    }
  }

  /** A reading of the old syntax. */
  predicate OldReading(x: string, host: string, port: string, local: string, u: Uri) {
    && NoColon(host) && IsNumber(port)
    && ( || (NoColon(port) && x == host + (":" + port) && u == Uri("udp", host, Stoi(port).n, map[]))
         || (NoColon(local) && x == host + (":" + (port + (":" + local)))
             && u == Uri("udp", host, Stoi(port).n, map[LOCAL_PORT := local])))
  }

  lemma OldReadingParses(x: string, host: string, port: string, local: string, u: Uri)
    requires Old(x) && OldReading(x, host, port, local, u)
    ensures ParseUdp("udp://" + x) == Ok(u)
  {
    hide Stoi, ParseUdp, Free;
    if NoColon(port) && x == host + (":" + port) && u == Uri("udp", host, Stoi(port).n, map[]) {
      FreeSum(host, ":" + port, NEW_STYLE);
      FreeSum(":", port, NEW_STYLE);
      OnePortMeaning(host, port);
    } else {
      FreeSum(host, ":" + (port + (":" + local)), NEW_STYLE);
      FreeSum(":", port + (":" + local), NEW_STYLE);
      FreeSum(port, ":" + local, NEW_STYLE);
      FreeSum(":", local, NEW_STYLE);
      LocalPortMeaning(host, port, local);
    }
  }

  /** The old syntax is accepted exactly as udp://host:port or udp://host:port:local, with a number for the
      remote port, and has the meaning it has in the new syntax. */
  lemma ParseUdpIffOldSyntax(x: string, u: Uri)
    requires Old(x)
    ensures ParseUdp("udp://" + x) == Ok(u) <==> exists host, port, local :: OldReading(x, host, port, local, u)
  {
    hide Stoi, ParseUdp, Free, IsNumber;
    if ParseUdp("udp://" + x) == Ok(u) {
      var host, port, local := OldSyntaxCases(x);
      if x == host {
        NoPortRejected(host);
      } else if NoColon(port) && x == host + (":" + port) {
        OnePortMeaning(host, port);
      } else {
        LocalPortMeaning(host, port, local);
      }
      assert OldReading(x, host, port, local, u);
    }
    forall host, port, local | OldReading(x, host, port, local, u) ensures ParseUdp("udp://" + x) == Ok(u) {
      OldReadingParses(x, host, port, local, u);
    }
  }
}
