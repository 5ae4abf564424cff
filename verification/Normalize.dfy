/** Normalisation of a requested host firewall policy before it is stored and compared. */
module Normalize {
  import opened Numbers
  import opened Text
  import opened Wrappers
  import opened RfwRules

  const MAX_RULES := 64
  const MAX_KEY := 80
  const MAX_COUNTRIES := 30
  const MAX_PRIORITY := 100_000

  // ---------- CIDR ----------

  datatype Ip = V4(n: nat) | V6(n: nat)

  function Width(ip: Ip): nat {
    if ip.V4? then 32 else 128
  }

  /** The standard library's text form of addresses. */
  datatype Codec = Codec(parse: string -> Option<Ip>, show: Ip -> string)

  ghost predicate Valid(ip: Ip) {
    ip.n < Pow2(Width(ip))
  }

  /** Parsing gives real addresses; a shown address is parsed back, and holds neither white
      space nor a slash. */
  ghost predicate Faithful(c: Codec) {
    && (forall s :: c.parse(s).Some? ==> Valid(c.parse(s).value))
    && (forall ip :: Valid(ip) ==> c.parse(c.show(ip)) == Some(ip) && Plain(c.show(ip)))
  }

  ghost predicate Plain(s: string) {
    forall i :: 0 <= i < |s| ==> !IsSpace(s[i]) && s[i] != '/'
  }

  datatype Net = Net(ip: Ip, prefix: nat)

  function ParseCidr(c: Codec, value: string): (r: Option<Net>)
    ensures r.Some? ==> r.value.prefix <= Width(r.value.ip)
  {
    var t := Trim(value);
    var k := IndexOf(t, '/');
    if k == |t| then None
    else
      var prefix, ip := ParseUnsigned(t[k + 1..], 256), c.parse(t[..k]);
      if prefix.None? || ip.None? || prefix.value > Width(ip.value) then None
      else Some(Net(ip.value, prefix.value))
  }

  /** The size of a network. */
  function Size(net: Net): (p: nat)
    requires net.prefix <= Width(net.ip)
    ensures p > 0
  {
    Pow2(Width(net.ip) - net.prefix)
  }

  /** The largest multiple of s up to n. */
  function Down(n: nat, s: nat): (r: nat)
    requires s > 0
    ensures r <= n && r / s == n / s
  {
    Division(n, s);
    Quotient(n / s, s);
    n / s * s
  }

  /** Clears the bits past the prefix. */
  function Masked(net: Net): Net
    requires net.prefix <= Width(net.ip)
  {
    var n := Down(net.ip.n, Size(net));
    net.(ip := if net.ip.V4? then V4(n) else V6(n))
  }

  function ShowCidr(c: Codec, net: Net): string {
    c.show(net.ip) + "/" + ShowNat(net.prefix)
  }

  function NormalCidr(c: Codec, value: string): Option<string> {
    var net := ParseCidr(c, value);
    if net.None? then None else Some(ShowCidr(c, Masked(net.value)))
  }

  /** The addresses a CIDR stands for. */
  ghost predicate InCidr(c: Codec, value: string, x: Ip) {
    var net := ParseCidr(c, value);
    && net.Some? && x.V4? == net.value.ip.V4?
    && x.n / Size(net.value) == net.value.ip.n / Size(net.value)
  }

  lemma {:induction false} SlashIn(a: string, b: string)
    requires forall i :: 0 <= i < |a| ==> a[i] != '/'
    ensures IndexOf(a + "/" + b, '/') == |a|
  {
    var s := a + "/" + b;
    assert s[|a|] == '/' && forall i :: 0 <= i < |a| ==> s[i] != '/';
  }

  /** A shown network is parsed back, and trimming leaves it alone. */
  lemma ShownParses(c: Codec, net: Net)
    requires Faithful(c) && Valid(net.ip) && net.prefix <= Width(net.ip)
    ensures ParseCidr(c, ShowCidr(c, net)) == Some(net)
    ensures Trim(ShowCidr(c, net)) == ShowCidr(c, net)
  {
    hide Pow2;
    var a, b := c.show(net.ip), ShowNat(net.prefix);
    var t := a + "/" + b;
    assert Plain(a) && c.parse(a) == Some(net.ip);
    TrimFixed(t);
    SlashIn(a, b);
    assert t[..|a|] == a && t[|a| + 1..] == b;
    ParseShown(net.prefix, 256);
    hide TrimStart, TrimEnd, Trim, ParseUnsigned, IndexOf;
  }

  lemma MaskedAgain(net: Net)
    requires net.prefix <= Width(net.ip)
    ensures Size(Masked(net)) == Size(net) && Masked(Masked(net)) == Masked(net)
    ensures Masked(net).ip.n / Size(net) == net.ip.n / Size(net) && Masked(net).ip.n <= net.ip.n
  {
    hide Pow2;
  }

  lemma ParsedIsValid(c: Codec, value: string)
    requires Faithful(c) && ParseCidr(c, value).Some?
    ensures Valid(ParseCidr(c, value).value.ip)
  {
    hide Pow2, Trim, ParseUnsigned;
  }

  /** Normalising is idempotent, leaves nothing to trim, and keeps the addresses meant. */
  lemma NormalCidrMeans(c: Codec, value: string, x: Ip)
    requires Faithful(c) && NormalCidr(c, value).Some?
    ensures NormalCidr(c, NormalCidr(c, value).value) == NormalCidr(c, value)
    ensures Trim(NormalCidr(c, value).value) == NormalCidr(c, value).value
    ensures InCidr(c, value, x) <==> InCidr(c, NormalCidr(c, value).value, x)
  {
    var net := ParseCidr(c, value).value;
    MaskedAgain(net);
    ParsedIsValid(c, value);
    ShownParses(c, Masked(net));
    hide ParseCidr, ShowCidr, Trim, Faithful, Pow2, Size, Down;
  }

  // ---------- country codes ----------

  predicate IsCode(c: string) {
    |c| == 2 && 'A' <= c[0] <= 'Z' && 'A' <= c[1] <= 'Z'
  }

  /** The alphabetical place of a code. */
  function Rank(c: string): int {
    if |c| == 2 then c[0] as int * 256 + c[1] as int else 0
  }

  /** Codes are two capital letters of ASCII, ranked by the first and then by the second. */
  lemma CodesRanked(a: string, b: string)
    ensures IsCode(a) <==> |a| == 2 && forall c :: c in a ==> 65 <= c as int <= 90
    ensures IsCode(a) && IsCode(b) ==> (Rank(a) < Rank(b) <==> a[0] < b[0] || (a[0] == b[0] && a[1] < b[1]))
  {
    if |a| == 2 {
      assert a[0] in a && a[1] in a;
    }
  }

  /** Codes in strictly ascending order. */
  predicate Ascending(codes: seq<string>) {
    && (forall i :: 0 <= i < |codes| ==> IsCode(codes[i]))
    && (forall i, j :: 0 <= i < j < |codes| ==> Rank(codes[i]) < Rank(codes[j]))
  }

  /** Insertion into the ordered set. */
  function Inserted(codes: seq<string>, c: string): (r: seq<string>)
    ensures forall x :: x in r <==> x in codes || x == c
    ensures |r| <= |codes| + 1
  {
    if codes == [] then [c]
    else if Rank(c) < Rank(codes[0]) then [c] + codes
    else if c == codes[0] then codes
    else
      assert codes == [codes[0]] + codes[1..];
      [codes[0]] + Inserted(codes[1..], c)
  }

  lemma RankDecides(a: string, b: string)
    requires IsCode(a) && IsCode(b) && Rank(a) == Rank(b)
    ensures a == b
  {
  }

  /** A smaller code in front keeps the order. */
  lemma AscendingHead(h: string, tail: seq<string>)
    requires IsCode(h) && Ascending(tail) && forall x :: x in tail ==> Rank(h) < Rank(x)
    ensures Ascending([h] + tail)
  {
    hide Rank, IsCode;
  }

  lemma AscendingTail(codes: seq<string>)
    requires codes != [] && Ascending(codes)
    ensures IsCode(codes[0]) && Ascending(codes[1..]) && forall x :: x in codes[1..] ==> Rank(codes[0]) < Rank(x)
  {
    hide Rank, IsCode;
  }

  lemma {:induction false} InsertedMeans(codes: seq<string>, c: string)
    requires IsCode(c) && Ascending(codes)
    ensures Ascending(Inserted(codes, c))
  {
    if codes == [] {
      assert Ascending([c]);
    } else {
      AscendingTail(codes);
      assert codes == [codes[0]] + codes[1..];
      if Rank(c) < Rank(codes[0]) {
        hide Ascending, Rank, IsCode;
        AscendingHead(c, codes);
      } else if c != codes[0] {
        if Rank(c) == Rank(codes[0]) {
          RankDecides(c, codes[0]);
        }
        hide Ascending, Rank, IsCode;
        InsertedMeans(codes[1..], c);
        AscendingHead(codes[0], Inserted(codes[1..], c));
      }
    }
  }

  /** The codes of the first n entries, trimmed and in upper case; None if one is no code. */
  function Collected(countries: seq<string>, n: nat): Option<seq<string>>
    requires n <= |countries|
  {
    if n == 0 then Some([])
    else
      var r, c := Collected(countries, n - 1), Upper(Trim(countries[n - 1]));
      if r.None? || !IsCode(c) then None else Some(Inserted(r.value, c))
  }

  /** The collected codes are the countries asked for, each once, in order. */
  lemma {:induction false} CollectedMeans(countries: seq<string>, n: nat)
    requires n <= |countries| && Collected(countries, n).Some?
    ensures Ascending(Collected(countries, n).value)
    ensures forall x :: x in Collected(countries, n).value <==> Asked(countries, n, x)
    ensures |Collected(countries, n).value| <= n
  {
    if n > 0 {
      CollectedMeans(countries, n - 1);
      var codes, c := Collected(countries, n - 1).value, Upper(Trim(countries[n - 1]));
      InsertedMeans(codes, c);
      AskedNext(countries, n);
      hide Inserted, Upper, Trim, Ascending, Asked;
    }
  }

  ghost predicate Asked(countries: seq<string>, n: nat, x: string)
    requires n <= |countries|
  {
    exists i :: 0 <= i < n && x == Upper(Trim(countries[i]))
  }

  lemma AskedNext(countries: seq<string>, n: nat)
    requires 0 < n <= |countries|
    ensures forall x :: Asked(countries, n, x) <==> Asked(countries, n - 1, x) || x == Upper(Trim(countries[n - 1]))
  {
    hide Upper, Trim;
  }

  lemma CodeFixed(c: string)
    requires IsCode(c)
    ensures Upper(Trim(c)) == c
  {
    TrimFixed(c);
    hide Trim;
  }

  lemma {:induction false} InsertedLast(codes: seq<string>, c: string)
    requires forall x :: x in codes ==> Rank(x) < Rank(c)
    ensures Inserted(codes, c) == codes + [c]
  {
    if codes != [] {
      assert codes[0] in codes;
      hide Rank;
      InsertedLast(codes[1..], c);
      assert codes + [c] == [codes[0]] + (codes[1..] + [c]);
    }
  }

  lemma AscendingLast(codes: seq<string>, n: nat)
    requires Ascending(codes) && n < |codes|
    ensures IsCode(codes[n]) && forall x :: x in codes[..n] ==> Rank(x) < Rank(codes[n])
  {
    hide Rank, IsCode;
  }

  lemma NoneCollected(codes: seq<string>)
    ensures Collected(codes, 0) == Some(codes[..0])
  {
  }

  lemma CollectedStep(countries: seq<string>, n: nat, codes: seq<string>, c: string)
    requires 0 < n <= |countries| && Collected(countries, n - 1) == Some(codes)
    requires Upper(Trim(countries[n - 1])) == c && IsCode(c)
    ensures Collected(countries, n) == Some(Inserted(codes, c))
  {
    hide Upper, Trim, Inserted, IsCode;
  }

  lemma CollectedNext(codes: seq<string>, n: nat)
    requires 0 < n <= |codes| && Collected(codes, n - 1) == Some(codes[..n - 1]) && IsCode(codes[n - 1])
    requires forall x :: x in codes[..n - 1] ==> Rank(x) < Rank(codes[n - 1])
    ensures Collected(codes, n) == Some(codes[..n])
  {
    hide *;
    CodeFixed(codes[n - 1]);
    CollectedStep(codes, n, codes[..n - 1], codes[n - 1]);
    InsertedLast(codes[..n - 1], codes[n - 1]);
    assert codes[..n] == codes[..n - 1] + [codes[n - 1]];
  }

  /** Codes in order are left as they are. */
  lemma {:induction false} AscendingFixed(codes: seq<string>, n: nat)
    requires Ascending(codes) && n <= |codes|
    ensures Collected(codes, n) == Some(codes[..n])
  {
    hide Collected, Ascending, Rank, IsCode;
    if n == 0 {
      NoneCollected(codes);
    } else {
      AscendingFixed(codes, n - 1);
      AscendingLast(codes, n - 1);
      CollectedNext(codes, n);
    }
  }

  // ---------- rules ----------

  const PROTOCOLS := {"all", "tcp", "udp", "http", "tls", "socks", "ssh", "fet", "wireguard", "openvpn", "quic", "mtproto"}
  const OUTWARD := {"all", "tcp", "udp", "socks", "fet", "wireguard", "mtproto"}

  /** Everything about a rule but its addresses, with its protocol in lower case. */
  predicate ValidShape(r: Rule, protocol: string) {
    && 0 <= r.priority <= MAX_PRIORITY && r.direction in {"in", "out"} && r.action in {"block", "pass"}
    && protocol in (if r.direction == "out" then OUTWARD else PROTOCOLS)
    && (r.portEnd.Some? ==> r.portEnd.value >= r.portStart)
  }

  function NormalRule(c: Codec, r: Rule): Option<Rule> {
    var protocol, ipType := Lower(r.protocol), Lower(r.ipType);
    if !ValidShape(r, protocol) then None
    else
      var n := r.(protocol := protocol, ipType := ipType,
                  portEnd := if r.portEnd == Some(r.portStart) then None else r.portEnd);
      if ipType == "any" then Some(n.(ip := "", countries := []))
      else if ipType == "cidr" then
        var ip := NormalCidr(c, r.ip);
        if ip.None? then None else Some(n.(ip := ip.value, countries := []))
      else if ipType == "geoip" && 0 < |r.countries| <= MAX_COUNTRIES then
        var codes := Collected(r.countries, |r.countries|);
        if codes.None? then None else Some(n.(ip := "", countries := codes.value))
      else None
  }

  /** A rule in normal form. */
  ghost predicate IsNormal(c: Codec, r: Rule) {
    && ValidShape(r, r.protocol) && (r.portEnd.Some? ==> r.portEnd.value > r.portStart)
    && (r.ipType == "any" ==> r.ip == "" && r.countries == [])
    && (r.ipType == "cidr" ==> IsNetwork(c, r.ip) && r.countries == [])
    && (r.ipType == "geoip" ==> r.ip == "" && 0 < |r.countries| <= MAX_COUNTRIES && Ascending(r.countries))
    && r.ipType in {"any", "cidr", "geoip"}
  }

  /** The text of a network whose address has no bits past the prefix. */
  ghost predicate IsNetwork(c: Codec, s: string) {
    exists net :: IsText(c, net, s)
  }

  ghost predicate IsText(c: Codec, net: Net, s: string) {
    net.prefix <= Width(net.ip) && Valid(net.ip) && Masked(net) == net && s == ShowCidr(c, net)
  }

  lemma LowerFixed(s: string)
    requires forall i :: 0 <= i < |s| ==> !('A' <= s[i] <= 'Z')
    ensures Lower(s) == s
  {
  }

  lemma CidrIsNetwork(c: Codec, value: string)
    requires Faithful(c) && NormalCidr(c, value).Some?
    ensures IsNetwork(c, NormalCidr(c, value).value)
  {
    var net := ParseCidr(c, value).value;
    MaskedAgain(net);
    ParsedIsValid(c, value);
    hide Pow2, ShowCidr, ParseCidr, Faithful, Down;
    assert IsText(c, Masked(net), NormalCidr(c, value).value);
  }

  lemma NetworkFixed(c: Codec, s: string)
    requires Faithful(c) && IsNetwork(c, s)
    ensures NormalCidr(c, s) == Some(s) && Trim(s) == s
  {
    var net :| IsText(c, net, s);
    ShownParses(c, net);
    hide ParseCidr, Faithful, Trim, ShowCidr, Masked, Valid;
  }

  /** Normalisation gives normal rules, for the same key. */
  lemma NormalIsNormal(c: Codec, r: Rule)
    requires Faithful(c) && NormalRule(c, r).Some?
    ensures IsNormal(c, NormalRule(c, r).value) && NormalRule(c, r).value.key == r.key
  {
    if Lower(r.ipType) == "cidr" {
      CidrIsNetwork(c, r.ip);
    } else if Lower(r.ipType) == "geoip" {
      CollectedMeans(r.countries, |r.countries|);
      CollectedSome(r.countries, |r.countries|);
    }
    ShapeKept(r, NormalRule(c, r).value, Lower(r.protocol));
    hide Lower, NormalCidr, Collected, Ascending, Faithful, IsNetwork;
    assert r.portEnd.Some? && r.portEnd != Some(r.portStart) ==> r.portEnd.value > r.portStart;
    hide ValidShape;
  }

  lemma ShapeKept(r: Rule, n: Rule, protocol: string)
    requires ValidShape(r, protocol) && n.priority == r.priority && n.direction == r.direction && n.action == r.action
    requires n.portStart == r.portStart && (n.portEnd.Some? ==> n.portEnd == r.portEnd)
    ensures ValidShape(n, protocol)
  {
  }

  lemma CollectedSome(countries: seq<string>, n: nat)
    requires 0 < n <= |countries| && Collected(countries, n).Some?
    ensures Collected(countries, n).value != []
  {
  }

  /** The rules normalisation leaves alone are exactly the normal ones. */
  lemma NormalIffFixed(c: Codec, r: Rule)
    requires Faithful(c)
    ensures IsNormal(c, r) <==> NormalRule(c, r) == Some(r)
  {
    if IsNormal(c, r) {
      LowWords(r);
      if r.ipType == "cidr" {
        NetworkFixed(c, r.ip);
      } else if r.ipType == "geoip" {
        AscendingFixed(r.countries, |r.countries|);
        assert r.countries[..|r.countries|] == r.countries;
      }
      hide Lower, NormalCidr, Collected, Ascending, Faithful, IsNetwork;
    } else if NormalRule(c, r) == Some(r) {
      NormalIsNormal(c, r);
    }
  }

  lemma LowWords(r: Rule)
    requires r.protocol in PROTOCOLS + OUTWARD && r.ipType in {"any", "cidr", "geoip"}
    ensures Lower(r.protocol) == r.protocol && Lower(r.ipType) == r.ipType
  {
    LowerFixed(r.protocol);
    LowerFixed(r.ipType);
    hide Lower;
  }

  /** A normal rule is recognised in a listing that spells it out. */
  lemma NormalIsRecognised(c: Codec, r: Rule)
    requires Faithful(c) && IsNormal(c, r)
    ensures RawMatches(Echo(r), r)
  {
    EchoMatches(r);
    if r.ipType == "cidr" {
      NetworkFixed(c, r.ip);
    }
    hide RawMatches, Echo, Trim;
  }

  // ---------- what normalising keeps ----------

  /** The last port of a rule's range. */
  function LastPort(r: Rule): nat {
    if r.portEnd.Some? then r.portEnd.value else r.portStart
  }

  /** Normalising changes how a rule is written, not what it says. */
  lemma NormalKeeps(c: Codec, r: Rule, x: Ip)
    requires Faithful(c) && NormalRule(c, r).Some?
    ensures var n := NormalRule(c, r).value;
      && n.key == r.key && n.priority == r.priority && n.direction == r.direction && n.action == r.action
      && n.enabled == r.enabled && n.portStart == r.portStart && LastPort(n) == LastPort(r)
      && n.protocol == Lower(r.protocol) && n.ipType == Lower(r.ipType)
      && (n.ipType == "cidr" ==> (InCidr(c, n.ip, x) <==> InCidr(c, r.ip, x)))
      && (n.ipType == "geoip" ==> CountrySet(n.countries) == CountrySet(r.countries))
  {
    if Lower(r.ipType) == "cidr" {
      NormalCidrMeans(c, r.ip, x);
    } else if Lower(r.ipType) == "geoip" && |r.countries| > 0 {
      var codes := Collected(r.countries, |r.countries|);
      if codes.Some? {
        CollectedCountries(r.countries, codes.value);
      }
    }
    hide Lower, NormalCidr, Collected, InCidr, Faithful, CountrySet, ValidShape;
  }

  /** A rule is accepted if and only if every field is in its range. */
  lemma AcceptedIff(c: Codec, r: Rule)
    ensures NormalRule(c, r).Some? <==>
      && 0 <= r.priority <= 100_000 && r.portStart <= LastPort(r) && r.action in {"block", "pass"}
      && ((r.direction == "in" && Lower(r.protocol) in {"http", "tls", "ssh", "openvpn", "quic"})
          || (r.direction in {"in", "out"} && Lower(r.protocol) in {"all", "tcp", "udp", "socks", "fet", "wireguard", "mtproto"}))
      && Lower(r.ipType) in {"any", "cidr", "geoip"}
      && (Lower(r.ipType) == "cidr" ==> ParseCidr(c, r.ip).Some?)
      && (Lower(r.ipType) == "geoip" ==>
            1 <= |r.countries| <= 30 && forall i :: 0 <= i < |r.countries| ==> IsCode(Upper(Trim(r.countries[i]))))
  {
    if Lower(r.ipType) == "geoip" {
      CollectedIff(r.countries, |r.countries|);
    }
    hide Lower, ParseCidr, Collected, Trim, Upper, IsCode, ShowCidr, Masked;
  }

  lemma {:induction false} CollectedIff(countries: seq<string>, n: nat)
    requires n <= |countries|
    ensures Collected(countries, n).Some? <==> forall i :: 0 <= i < n ==> IsCode(Upper(Trim(countries[i])))
  {
    hide Trim, Upper, IsCode, Inserted;
    if n > 0 {
      CollectedIff(countries, n - 1);
    }
  }

  /** The codes collected are the set of countries asked for. */
  lemma CollectedCountries(countries: seq<string>, codes: seq<string>)
    requires Collected(countries, |countries|) == Some(codes)
    ensures Ascending(codes) && CountrySet(codes) == CountrySet(countries)
    ensures CountrySet(countries) == set x | x in codes
  {
    CollectedMeans(countries, |countries|);
    hide Collected, Trim, Upper;
    AscendingCountries(codes);
    forall x ensures x in CountrySet(countries) <==> x in codes {
      assert x in codes <==> Asked(countries, |countries|, x);
    }
  }

  lemma AscendingCountries(codes: seq<string>)
    requires Ascending(codes)
    ensures CountrySet(codes) == set x | x in codes
  {
    forall i | 0 <= i < |codes| ensures Upper(Trim(codes[i])) == codes[i] {
      CodeFixed(codes[i]);
    }
    hide Trim, Upper, IsCode, Rank;
    forall x ensures x in CountrySet(codes) <==> x in codes {
    }
  }

  /** Two ascending lists of the same codes are the same. */
  lemma {:induction false} AscendingUnique(a: seq<string>, b: seq<string>)
    requires Ascending(a) && Ascending(b) && forall x :: x in a <==> x in b
    ensures a == b
  {
    assert b == [] || b[0] in a;
    if a != [] {
      assert a[0] in b;
      AscendingTail(a);
      AscendingTail(b);
      SameHead(a, b);
      hide Ascending, Rank, IsCode;
      forall x ensures x in a[1..] <==> x in b[1..] {
        TailElement(a, x);
        TailElement(b, x);
      }
      AscendingUnique(a[1..], b[1..]);
      assert a == [a[0]] + a[1..] && b == [b[0]] + b[1..];
    }
  }

  lemma SameHead(a: seq<string>, b: seq<string>)
    requires a != [] && b != [] && a[0] in b && b[0] in a && IsCode(a[0]) && IsCode(b[0])
    requires forall x :: x in a[1..] ==> Rank(a[0]) < Rank(x)
    requires forall x :: x in b[1..] ==> Rank(b[0]) < Rank(x)
    ensures a[0] == b[0]
  {
    hide Rank, IsCode;
    assert b == [b[0]] + b[1..] && a == [a[0]] + a[1..];
  }

  lemma TailElement(a: seq<string>, x: string)
    requires a != [] && forall y :: y in a[1..] ==> Rank(a[0]) < Rank(y)
    ensures x in a[1..] <==> x in a && x != a[0]
  {
    assert a == [a[0]] + a[1..];
    hide Rank;
  }

  // ---------- which listed rows are recognised ----------

  /** What a listed row says: words in lower case, a range of one port as no range, the CIDR
      without surrounding space, the countries in order. */
  function Meaning(raw: Raw): Payload {
    var ipType := Lower(raw.ipType);
    Payload(raw.priority, Lower(raw.direction), Lower(raw.protocol), Lower(raw.action), raw.enabled, raw.portStart,
            if raw.portEnd == raw.portStart then None else Some(raw.portEnd), ipType,
            if ipType == "cidr" then Some(Trim(raw.ip)) else None,
            if ipType == "geoip" then Collected(raw.countries, |raw.countries|) else None)
  }

  lemma SameCountries(raw: seq<string>, want: seq<string>)
    requires Ascending(want)
    ensures CountrySet(raw) == CountrySet(want) <==> Collected(raw, |raw|) == Some(want)
  {
    AscendingCountries(want);
    CollectedIff(raw, |raw|);
    if CountrySet(raw) == CountrySet(want) {
      forall i | 0 <= i < |raw| ensures IsCode(Upper(Trim(raw[i]))) {
        assert Upper(Trim(raw[i])) in CountrySet(raw);
        hide Upper, Trim;
      }
      var codes := Collected(raw, |raw|).value;
      CollectedCountries(raw, codes);
      hide CountrySet, Collected, Ascending;
      forall x ensures x in codes <==> x in want {
        assert x in CountrySet(raw) <==> x in CountrySet(want);
      }
      AscendingUnique(codes, want);
    } else if Collected(raw, |raw|) == Some(want) {
      CollectedCountries(raw, want);
    }
  }

  lemma ShapeWords(r: Rule)
    requires ValidShape(r, r.protocol)
    ensures Lower(r.direction) == r.direction && Lower(r.action) == r.action
  {
    LowerFixed(r.direction);
    LowerFixed(r.action);
    hide Lower;
  }

  /** A listed row is recognised as a rule in normal form if and only if it says what the rule
      asks for: one edited in any field is not. */
  lemma RecognisedIff(c: Codec, raw: Raw, want: Rule)
    requires IsNormal(c, want)
    ensures RawMatches(raw, want) <==> Meaning(raw) == Fingerprint(want)
  {
    LowWords(want);
    ShapeWords(want);
    if want.ipType == "geoip" {
      SameCountries(raw.countries, want.countries);
    }
    hide Lower, Trim, CountrySet, Collected, Ascending, IsNetwork, ValidShape;
  }

  // ---------- the whole policy ----------

  predicate KeyChar(c: char) {
    'a' <= c <= 'z' || 'A' <= c <= 'Z' || '0' <= c <= '9' || c == '_' || c == '-'
  }

  predicate ValidKey(key: string) {
    0 < |key| <= MAX_KEY && forall i :: 0 <= i < |key| ==> KeyChar(key[i])
  }

  /** Keys are 1 to 80 letters, digits, dashes and underscores of ASCII. */
  lemma KeyIff(key: string)
    ensures ValidKey(key) <==> 1 <= |key| <= 80 && forall c :: c in key ==>
      var n := c as int; 97 <= n <= 122 || 65 <= n <= 90 || 48 <= n <= 57 || n == 45 || n == 95
  {
    forall i | 0 <= i < |key| ensures key[i] in key {
    }
  }

  ghost predicate Acceptable(c: Codec, rules: seq<Rule>) {
    && |rules| <= MAX_RULES && UniqueKeys(rules)
    && forall i :: 0 <= i < |rules| ==> ValidKey(rules[i].key) && NormalRule(c, rules[i]).Some?
  }

  /** Each rule in its normal form. */
  ghost predicate NormalOf(c: Codec, rules: seq<Rule>, r: seq<Rule>) {
    |r| == |rules| && forall i :: 0 <= i < |rules| ==> NormalRule(c, rules[i]) == Some(r[i])
  }

  method NormalizePolicy(c: Codec, rules: seq<Rule>) returns (r: Option<seq<Rule>>)
    ensures r.Some? <==> Acceptable(c, rules)
    ensures r.Some? ==> NormalOf(c, rules, r.value) && UniqueKeys(r.value)
    ensures r.Some? ==> |r.value| <= 64 && forall i :: 0 <= i < |rules| ==> 1 <= |rules[i].key| <= 80
  {
    if |rules| > MAX_RULES {
      return None;
    }
    var out: seq<Rule> := [];
    var keys: set<string> := {};
    hide NormalRule, ValidKey, Acceptable, NormalOf, UniqueKeys;
    for i := 0 to |rules|
      invariant |out| == i && Seen(c, rules, i, keys, out)
    {
      var n := NormalRule(c, rules[i]);
      SeenNext(c, rules, i, keys, out);
      if !ValidKey(rules[i].key) || rules[i].key in keys || n.None? {
        return None;
      }
      keys := keys + {rules[i].key};
      out := out + [n.value];
    }
    SeenAll(c, rules, keys, out);
    KeysSized(c, rules);
    KeysKept(c, rules, out);
    return Some(out);
  }

  /** The first i rules are acceptable, with their keys and their normal forms. */
  ghost predicate Seen(c: Codec, rules: seq<Rule>, i: nat, keys: set<string>, out: seq<Rule>) {
    && i <= |rules| && |out| == i
    && (forall j :: 0 <= j < i ==> NormalRule(c, rules[j]) == Some(out[j]) && ValidKey(rules[j].key) && rules[j].key in keys)
    && (forall k :: k in keys ==> exists j :: 0 <= j < i && rules[j].key == k)
    && (forall j, k :: 0 <= j < k < i ==> rules[j].key != rules[k].key)
  }

  lemma SeenNext(c: Codec, rules: seq<Rule>, i: nat, keys: set<string>, out: seq<Rule>)
    requires i < |rules| <= MAX_RULES && Seen(c, rules, i, keys, out)
    ensures var n := NormalRule(c, rules[i]);
      if !ValidKey(rules[i].key) || rules[i].key in keys || n.None? then !Acceptable(c, rules)
      else Seen(c, rules, i + 1, keys + {rules[i].key}, out + [n.value])
  {
    hide NormalRule, ValidKey;
    if rules[i].key in keys {
      var j :| 0 <= j < i && rules[j].key == rules[i].key;
    }
  }

  lemma KeysSized(c: Codec, rules: seq<Rule>)
    requires Acceptable(c, rules)
    ensures forall i :: 0 <= i < |rules| ==> 1 <= |rules[i].key| <= 80
  {
    hide NormalRule;
    forall i | 0 <= i < |rules| ensures 1 <= |rules[i].key| <= 80 {
      assert ValidKey(rules[i].key);
    }
  }

  lemma SeenAll(c: Codec, rules: seq<Rule>, keys: set<string>, out: seq<Rule>)
    requires |rules| <= MAX_RULES && Seen(c, rules, |rules|, keys, out)
    ensures Acceptable(c, rules) && NormalOf(c, rules, out) && UniqueKeys(rules)
  {
    hide NormalRule, ValidKey;
  }

  lemma KeysKept(c: Codec, rules: seq<Rule>, r: seq<Rule>)
    requires UniqueKeys(rules) && NormalOf(c, rules, r)
    ensures UniqueKeys(r)
  {
    forall i | 0 <= i < |r| ensures r[i].key == rules[i].key {
      hide Lower, NormalCidr, Collected, ValidShape;
      assert NormalRule(c, rules[i]) == Some(r[i]);
    }
    hide NormalRule;
  }

  /** What comes out has distinct keys, is normal, and is its own normal form. */
  lemma PolicyIsNormal(c: Codec, rules: seq<Rule>, r: seq<Rule>)
    requires Faithful(c) && Acceptable(c, rules) && NormalOf(c, rules, r)
    ensures UniqueKeys(r) && (forall i :: 0 <= i < |r| ==> IsNormal(c, r[i]))
    ensures Acceptable(c, r) && NormalOf(c, r, r)
  {
    forall i | 0 <= i < |r| ensures r[i].key == rules[i].key && IsNormal(c, r[i]) && NormalRule(c, r[i]) == Some(r[i]) {
      NormalIsNormal(c, rules[i]);
      NormalIffFixed(c, r[i]);
      hide IsNormal;
    }
    hide NormalRule, IsNormal, Faithful, ValidKey;
  }
}
