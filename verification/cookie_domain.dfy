/** The Domain attribute of the session cookie (sessions.go:83-112 and 172-201, cookie.go:86-112),
    against domain matching in section 5.1.3 of RFC 6265. */
module CookieDomain {
  import opened Entries

  // ---------- The string functions the code calls ----------

  /** strings.IndexByte */
  function IndexByte(s: string, c: char): (i: int)
    ensures -1 <= i < |s|
    ensures i >= 0 ==> s[i] == c && c !in s[..i]
    ensures i == -1 <==> c !in s
  {
    if s == "" then -1
    else if s[0] == c then 0
    else
      var i := IndexByte(s[1..], c);
      assert s == [s[0]] + s[1..];
      if i == -1 then -1 else
      assert s[..i + 1] == [s[0]] + s[1..][..i];
      i + 1
  }

  /** strings.LastIndexByte */
  function LastIndexByte(s: string, c: char): (i: int)
    ensures -1 <= i < |s|
    ensures i >= 0 ==> s[i] == c
    ensures forall j :: i < j < |s| ==> s[j] != c
  {
    if s == "" then -1
    else if s[|s| - 1] == c then |s| - 1
    else LastIndexByte(s[..|s| - 1], c)
  }

  /** strings.Count of a one-byte separator */
  function Count(s: string, c: char): nat {
    if s == "" then 0 else Count(s[..|s| - 1], c) + if s[|s| - 1] == c then 1 else 0
  }

  /** strings.Index */
  function Index(s: string, sub: string): (i: int)
    ensures -1 <= i && (i >= 0 ==> i + |sub| <= |s| && s[i..i + |sub|] == sub)
    ensures sub <= s ==> i == 0
  {
    if sub <= s then 0
    else if s == "" then -1
    else
      var i := Index(s[1..], sub);
      if i == -1 then -1 else
      assert s[i + 1..i + 1 + |sub|] == s[1..][i..i + |sub|];
      i + 1
  }

  /** strings.Replace with a limit of one replacement */
  function ReplaceFirst(s: string, sub: string, into: string): string {
    var i := Index(s, sub);
    if i == -1 then s else s[..i] + into + s[i + |sub|..]
  }

  predicate IsDigit(c: char) {
    '0' <= c <= '9'
  }

  predicate AllDigits(s: string) {
    forall i :: 0 <= i < |s| ==> IsDigit(s[i])
  }

  function Decimal(s: string): nat
    requires AllDigits(s)
  {
    if s == "" then 0
    else
      assert IsDigit(s[|s| - 1]);
      10 * Decimal(s[..|s| - 1]) + (s[|s| - 1] as int - '0' as int)
  }

  /** Whether strconv.Atoi succeeds, with 64-bit integers. */
  predicate AtoiOk(s: string) {
    var digits := if s != "" && (s[0] == '-' || s[0] == '+') then s[1..] else s;
    && digits != ""
    && AllDigits(digits)
    && Decimal(digits) <= if s[0] == '-' then 0x8000_0000_0000_0000 else 0x7fff_ffff_ffff_ffff
  }

  // ---------- The code ----------

  /** IsValidCookieDomain (cookie.go:86-112). */
  predicate IsValidCookieDomain(domain: string) {
    if domain == "0.0.0.0" || domain == "127.0.0.1" then false
    else
      var dotLen := Count(domain, '.');
      if dotLen == 0 then false
      else
        var lastDotIdx := LastIndexByte(domain, '.');
        !(dotLen >= 3 && lastDotIdx != -1 && |domain| > lastDotIdx + 1 && AtoiOk(domain[lastDotIdx + 1..]))
  }

  /** The host without its port. */
  function PortStripped(host: string): string {
    var i := IndexByte(host, ':');
    if i > 0 then host[..i] else host
  }

  /** Everything after the second-to-last dot, if that dot is past index 0. */
  function LastTwoLabels(host: string): string {
    var d := LastIndexByte(host, '.');
    if d <= 0 then host
    else
      var e := LastIndexByte(host[..d], '.');
      if e > 0 then host[e + 1..] else host
  }

  /** The first lines of the computation: what stands before the first colon, unless the host starts
      with one. */
  method WithoutPort(host: string) returns (requestDomain: string)
    ensures requestDomain == PortStripped(host)
    ensures ':' !in host || ":" <= host ==> requestDomain == host
    ensures forall i :: 0 < i < |host| && host[i] == ':' && ':' !in host[..i] ==> requestDomain == host[..i]
  {
    requestDomain := host;
    var portIdx := IndexByte(requestDomain, ':');
    if portIdx > 0 {
      requestDomain := requestDomain[0..portIdx];
    }
  }

  /** What stands before the last dot is replaced by its last label. */
  method Shortened(h: string) returns (requestDomain: string)
    ensures requestDomain == LastTwoLabels(h)
  {
    requestDomain := h;
    var dotIdx := LastIndexByte(requestDomain, '.');
    if dotIdx > 0 {
      var s := requestDomain[0..dotIdx];
      var secondDotIdx := LastIndexByte(s, '.');
      if secondDotIdx > 0 {
        s := s[secondDotIdx + 1..];
      }
      var subdomainSuff := LastIndexByte(requestDomain, '.');
      if subdomainSuff > |s| {
        requestDomain := ReplaceFirst(requestDomain, requestDomain[0..subdomainSuff], s);
        assert requestDomain == h[secondDotIdx + 1..];
      }
    }
  }

  /** The Domain for a host that has no port. */
  function DomainOf(h: string, disableSubdomainPersistence: bool): Option<string> {
    if !disableSubdomainPersistence && IsValidCookieDomain(h) then Some("." + LastTwoLabels(h)) else None
  }

  /** The Domain written on the cookie, if any. */
  method EmittedDomain(host: string, disableSubdomainPersistence: bool) returns (domain: Option<string>)
    ensures disableSubdomainPersistence ==> domain == None
    ensures ':' !in host || ":" <= host ==> domain == DomainOf(host, disableSubdomainPersistence)
    ensures forall i :: 0 < i < |host| && host[i] == ':' && ':' !in host[..i] ==>
              domain == DomainOf(host[..i], disableSubdomainPersistence)
  {
    hide IsValidCookieDomain, LastTwoLabels, PortStripped;
    domain := None;
    if !disableSubdomainPersistence {
      var requestDomain := WithoutPort(host);
      if IsValidCookieDomain(requestDomain) {
        requestDomain := Shortened(requestDomain);
        domain := Some("." + requestDomain);
      }
    }
  }

  // ---------- What the string functions mean ----------

  /** Every host is of one of these three forms. */
  lemma PortIsStripped(h: string, port: string)
    requires ':' !in h
    ensures PortStripped(h) == h
    ensures h != "" ==> PortStripped(h + ":" + port) == h
    ensures PortStripped(":" + port) == ":" + port
  {
    var host := h + ":" + port;
    assert host[|h|] == ':' && host[..|h|] == h;
    assert (":" + port)[0] == ':';
  }

  lemma LastDotIs(y: string, b: string)
    requires '.' !in b
    ensures LastIndexByte(y + "." + b, '.') == |y|
    ensures (y + "." + b)[..|y|] == y
  {
    LastIndexIs(y + "." + b, '.', |y|);
  }

  /** The last two labels, whatever is in front of them. Nothing is cut off a host with fewer than
      two dots, nor one whose second-to-last dot is its first character. */
  lemma LastTwoLabelsAre(x: string, a: string, b: string)
    requires '.' !in a && '.' !in b
    ensures x != "" ==> LastTwoLabels(x + "." + a + "." + b) == a + "." + b
    ensures LastTwoLabels("." + a + "." + b) == "." + a + "." + b
  {
    hide LastIndexByte;
    LastDotIs(x + "." + a, b);
    LastDotIs(x, a);
    assert (x + "." + a + "." + b)[|x| + 1..] == a + "." + b;
    LastDotIs("." + a, b);
    LastDotIs("", a);
    assert "" + "." + a == "." + a;
  }

  lemma FewLabelsAreKept(a: string, b: string)
    requires '.' !in a && '.' !in b
    ensures LastTwoLabels(a + "." + b) == a + "." + b && LastTwoLabels(b) == b
  {
    hide LastIndexByte;
    LastDotIs(a, b);
    assert LastIndexByte(a, '.') == -1 && LastIndexByte(b, '.') == -1;
  }

  /** A domain with dots is refused only if it has three of them and ends in a number. */
  lemma ValidDomainIff(front: string, last: string)
    requires '.' !in last
    ensures !IsValidCookieDomain(last)
    ensures var s := front + "." + last;
            IsValidCookieDomain(s) <==>
              s != "0.0.0.0" && s != "127.0.0.1" && !(Count(front, '.') >= 2 && AtoiOk(last))
  {
    CountZero(last, '.');
    var s := front + "." + last;
    LastIndexIs(s, '.', |front|);
    assert s[|front| + 1..] == last;
    CountOneDot();
    CountConcat(front, ".", '.');
    CountConcat(front + ".", last, '.');
  }

  function Pow10(n: nat): nat {
    if n == 0 then 1 else 10 * Pow10(n - 1)
  }

  lemma {:induction false} DecimalBounds(s: string)
    requires AllDigits(s)
    ensures Decimal(s) < Pow10(|s|)
    ensures s != "" && s[0] != '0' ==> Pow10(|s| - 1) <= Decimal(s)
  {
    if s != "" {
      DecimalBounds(s[..|s| - 1]);
      assert IsDigit(s[0]) && IsDigit(s[|s| - 1]);
    }
  }

  lemma LargePowers()
    ensures Pow10(18) == 1_000_000_000_000_000_000 && Pow10(19) == 10_000_000_000_000_000_000
  {
    assert Pow10(6) == 1_000_000;
    assert Pow10(12) == 1_000_000_000_000;
  }

  lemma {:induction false} Pow10Grows(m: nat, n: nat)
    requires m <= n
    ensures Pow10(m) <= Pow10(n)
    decreases n
  {
    if m < n {
      Pow10Grows(m, n - 1);
    }
  }

  /** A number is a run of digits, with or without a sign in front; up to eighteen digits always fit
      into 64 bits, and twenty without a leading zero never do. */
  lemma NumbersParse(digits: string, sign: string)
    requires sign in {"", "-", "+"} && !(digits != "" && digits[0] in {'-', '+'})
    ensures AtoiOk(sign + digits) ==> digits != "" && AllDigits(digits)
    ensures digits != "" && AllDigits(digits) && |digits| <= 18 ==> AtoiOk(sign + digits)
    ensures |digits| >= 20 && digits[0] != '0' ==> !AtoiOk(sign + digits)
  {
    var s := sign + digits;
    assert (if s != "" && (s[0] == '-' || s[0] == '+') then s[1..] else s) == digits;
    if digits != "" && AllDigits(digits) {
      DecimalBounds(digits);
      LargePowers();
      if |digits| <= 18 {
        Pow10Grows(|digits|, 18);
      } else if |digits| >= 20 {
        Pow10Grows(19, |digits| - 1);
      }
    }
  }

  // ---------- Address literals ----------

  predicate Octet(p: string) {
    1 <= |p| <= 3 && AllDigits(p) && Decimal(p) <= 255
  }

  function Quad(a: string, b: string, c: string, d: string): string {
    a + "." + b + "." + c + "." + d
  }

  /** A dotted-quad IPv4 address, alone or at the end of an IPv6 address; or an IPv6 address
      without dots. */
  ghost predicate IsAddress(s: string) {
    (':' in s && '.' !in s) || exists p, a, b, c, d :: EndsInQuad(s, p, a, b, c, d)
  }

  predicate EndsInQuad(s: string, p: string, a: string, b: string, c: string, d: string) {
    && s == p + Quad(a, b, c, d) && (p == "" || p[|p| - 1] == ':')
    && Octet(a) && Octet(b) && Octet(c) && Octet(d)
  }

  lemma {:induction false} CountConcat(s: string, t: string, c: char)
    ensures Count(s + t, c) == Count(s, c) + Count(t, c)
  {
    if t == "" {
      assert s + t == s;
    } else {
      assert (s + t)[..|s + t| - 1] == s + t[..|t| - 1];
      CountConcat(s, t[..|t| - 1], c);
    }
  }

  lemma {:induction false} CountZero(s: string, c: char)
    ensures Count(s, c) == 0 <==> c !in s
  {
    if s != "" {
      assert s == s[..|s| - 1] + [s[|s| - 1]];
      CountZero(s[..|s| - 1], c);
    }
  }

  lemma CountOneDot()
    ensures Count(".", '.') == 1
  {
    assert "."[..0] == "";
  }

  lemma QuadDots(p: string, a: string, b: string, c: string, d: string)
    ensures Count(p + Quad(a, b, c, d), '.') >= 3
  {
    CountOneDot();
    CountConcat(p, Quad(a, b, c, d), '.');
    CountConcat(a + "." + b + "." + c + ".", d, '.');
    CountConcat(a + "." + b + "." + c, ".", '.');
    CountConcat(a + "." + b + ".", c, '.');
    CountConcat(a + "." + b, ".", '.');
    CountConcat(a + ".", b, '.');
    CountConcat(a, ".", '.');
  }

  lemma OctetParses(d: string)
    requires Octet(d)
    ensures AtoiOk(d)
  {
  }

  lemma LastIndexIs(s: string, c: char, i: nat)
    requires i < |s| && s[i] == c && forall j :: i < j < |s| ==> s[j] != c
    ensures LastIndexByte(s, c) == i
  {
  }

  lemma NumericTailIsNotValid(front: string, d: string)
    requires Octet(d) && Count(front + "." + d, '.') >= 3
    ensures !IsValidCookieDomain(front + "." + d)
  {
    var s := front + "." + d;
    forall j | |front| < j < |s| ensures s[j] != '.' {
      assert s[j] == d[j - |front| - 1] && IsDigit(d[j - |front| - 1]);
    }
    LastIndexIs(s, '.', |front|);
    assert s[|front| + 1..] == d;
    OctetParses(d);
  }

  lemma QuadIsNotValid(s: string, p: string, a: string, b: string, c: string, d: string)
    requires EndsInQuad(s, p, a, b, c, d)
    ensures !IsValidCookieDomain(s)
  {
    QuadDots(p, a, b, c, d);
    var front := p + (a + "." + b + "." + c);
    assert s == front + "." + d;
    NumericTailIsNotValid(front, d);
  }

  /** No address literal is taken for a cookie domain. */
  lemma AddressIsNotValidDomain(s: string)
    requires IsAddress(s)
    ensures !IsValidCookieDomain(s)
  {
    if exists p, a, b, c, d :: EndsInQuad(s, p, a, b, c, d) {
      var p, a, b, c, d :| EndsInQuad(s, p, a, b, c, d);
      QuadIsNotValid(s, p, a, b, c, d);
    } else {
      CountZero(s, '.');
    }
  }

  /** The other spellings of an IPv4 address that some resolvers accept are not recognised. */
  lemma ShortAddressIsValidDomain()
    ensures IsValidCookieDomain("127.1") && !IsAddress("127.1")
  {
    assert "127.1"[..4] == "127." && "127."[..3] == "127" && "127"[..2] == "12" && "12"[..1] == "1" && "1"[..0] == "";
    assert Count("127", '.') == 0;
    assert Count("127.1", '.') == 1;
    forall p, a, b, c, d ensures !EndsInQuad("127.1", p, a, b, c, d) {
      QuadDots(p, a, b, c, d);
    }
  }

  // ---------- Domain matching ----------

  /** Section 5.1.3 of RFC 6265, on strings already in canonical form. */
  ghost predicate DomainMatches(host: string, domain: string) {
    || host == domain
    || (|domain| < |host| && host[|host| - |domain|..] == domain && host[|host| - |domain| - 1] == '.'
        && !IsAddress(host))
  }

  lemma LabelsAreSuffix(h: string)
    ensures var r := LastTwoLabels(h);
            r == h || (|r| < |h| && h[|h| - |r|..] == r && h[|h| - |r| - 1] == '.')
  {
  }

  /** For every host, an emitted Domain is a dot followed by a string that the host without its
      port domain-matches, and a host that is an address gets no Domain. */
  lemma EmittedDomainMatches(host: string)
    ensures var h := PortStripped(host);
            && (IsValidCookieDomain(h) ==> DomainMatches(h, LastTwoLabels(h)))
            && (IsAddress(h) ==> !IsValidCookieDomain(h))
  {
    var h := PortStripped(host);
    LabelsAreSuffix(h);
    if IsAddress(h) {
      AddressIsNotValidDomain(h);
    }
  }

  /** The same for a host as browsers send it, with and without a port: the Domain that is written
      for it, if any, matches the host without the port, and an address gets none. */
  lemma DomainWithAndWithoutPort(h: string, port: string)
    requires h != "" && ':' !in h
    ensures PortStripped(h) == PortStripped(h + ":" + port) == h
    ensures DomainOf(h, true) == None
    ensures var domain := DomainOf(PortStripped(h + ":" + port), false);
            && (domain.Some? <==> IsValidCookieDomain(h))
            && (domain.Some? ==> domain.value == "." + LastTwoLabels(h) && DomainMatches(h, LastTwoLabels(h)))
            && (IsAddress(h) ==> domain.None?)
  {
    PortIsStripped(h, port);
    EmittedDomainMatches(h);
  }

  lemma SecondDotDropped(h: string)
    ensures var r := LastTwoLabels(h);
            r != h ==> LastIndexByte(r, '.') > 0 ==> LastIndexByte(r[..LastIndexByte(r, '.')], '.') == -1
  {
    var d := LastIndexByte(h, '.');
    if d > 0 {
      var e := LastIndexByte(h[..d], '.');
      if e > 0 {
        var r := h[e + 1..];
        var k := LastIndexByte(r, '.');
        LastIndexIs(r, '.', d - e - 1);
        forall j | 0 <= j < k ensures r[..k][j] != '.' {
          assert r[j] == h[..d][j + e + 1];
        }
      }
    }
  }

  /** The computation is idempotent: what it returns is not shortened any further. In particular
      no more than two labels are ever kept of a host that is shortened at all. */
  lemma LastTwoLabelsIdempotent(h: string)
    ensures LastTwoLabels(LastTwoLabels(h)) == LastTwoLabels(h)
  {
    SecondDotDropped(h);
  }

  lemma {:induction false} CountUpToLast(s: string, c: char)
    requires LastIndexByte(s, c) >= 0
    ensures Count(s, c) == Count(s[..LastIndexByte(s, c)], c) + 1
  {
    if s[|s| - 1] != c {
      CountUpToLast(s[..|s| - 1], c);
      assert s[..|s| - 1][..LastIndexByte(s, c)] == s[..LastIndexByte(s, c)];
    }
  }

  /** A shortened host keeps exactly one dot, whatever the number of subdomain levels: a host with
      two subdomain levels does not keep one of them. */
  lemma ShortenedHostHasOneDot(h: string)
    requires LastTwoLabels(h) != h
    ensures Count(LastTwoLabels(h), '.') == 1
  {
    var r := LastTwoLabels(h);
    SecondDotDropped(h);
    var d := LastIndexByte(h, '.');
    var e := LastIndexByte(h[..d], '.');
    assert r[d - e - 1] == '.';
    var k := LastIndexByte(r, '.');
    CountUpToLast(r, '.');
    CountZero(r[..k], '.');
    if k == 0 {
      assert r[..0] == "";
    }
  }
}
