/** Decimal numerals: `to_string` on unsigned integers and its inverse. */
module Decimal {

  predicate IsDigit(c: char) { '0' <= c <= '9' }

  predicate AllDigits(s: string) { forall i :: 0 <= i < |s| ==> IsDigit(s[i]) }

  function Numeral(n: nat): string {
    if n < 10 then ['0' + n as char] else Numeral(n / 10) + ['0' + (n % 10) as char]
  }

  function ValueOf(s: string): nat
    requires AllDigits(s)
  {
    if s == "" then 0 else ValueOf(s[..|s| - 1]) * 10 + (s[|s| - 1] - '0') as nat
  }

  /** Most significant digit first. */
  lemma NumeralDigits(n: nat)
    ensures var text := Numeral(n);
            && |text| > 0 && text[|text| - 1] as int == '0' as int + n % 10
            && (n < 10 ==> |text| == 1) && (n >= 10 ==> text[..|text| - 1] == Numeral(n / 10))
  {
  }

  lemma {:induction false} NumeralRoundTrip(n: nat)
    ensures Numeral(n) != "" && AllDigits(Numeral(n)) && ValueOf(Numeral(n)) == n
  {
    if n < 10 {
      assert ValueOf(Numeral(n)) == ValueOf("") * 10 + n;
    } else {
      NumeralRoundTrip(n / 10);
      assert Numeral(n)[..|Numeral(n)| - 1] == Numeral(n / 10);
    }
  }
}

/** Executor endpoints and the derived SQL port (crates/elan-query/src/planner/remote_scan.rs). */
module Endpoint {
  import opened Wrappers
  import opened Decimal

  const U16_MAX: nat := 65535

  datatype EndpointError = MissingPort | InvalidPort | PortOverflow

  /** The standard library's reading of an unsigned 16-bit number: an optional plus sign, then one
      or more digits whose value fits. */
  function ReadU16(s: string): Option<nat> {
    var digits := if |s| > 1 && s[0] == '+' then s[1..] else s;
    if digits != "" && AllDigits(digits) && ValueOf(digits) <= U16_MAX then Some(ValueOf(digits)) else None
  }

  function LastColon(s: string): (r: Option<nat>)
    ensures r.None? ==> ':' !in s
    ensures r.Some? ==> r.value < |s| && s[r.value] == ':' && ':' !in s[r.value + 1..]
  {
    if s == "" then None
    else if s[|s| - 1] == ':' then Some(|s| - 1)
    else
      var r := LastColon(s[..|s| - 1]);
      assert r.Some? ==> s[r.value + 1..] == s[..|s| - 1][r.value + 1..] + [s[|s| - 1]];
      r
  }

  function ParseEndpoint(endpoint: string): Result<(string, nat), EndpointError> {
    match LastColon(endpoint)
    case None => Err(MissingPort)
    case Some(i) =>
      match ReadU16(endpoint[i + 1..])
      case None => Err(InvalidPort)
      case Some(port) => Ok((endpoint[..i], port))
  }

  /** Where a scan sends its SQL: the executor's port plus one, which both sides compute in 16 bits. */
  function SqlAddress(endpoint: string): Result<(string, nat), EndpointError> {
    match ParseEndpoint(endpoint)
    case Err(e) => Err(e)
    case Ok((host, port)) => if port == U16_MAX then Err(PortOverflow) else Ok((host, port + 1))
  }

  lemma {:induction false} LastColonOfJoin(host: string, text: string)
    requires ':' !in text
    ensures LastColon(host + ":" + text) == Some(|host|)
  {
    var s := host + ":" + text;
    if text != "" {
      var shorter := text[..|text| - 1];
      LastColonOfJoin(host, shorter);
      assert s[..|s| - 1] == host + ":" + shorter;
      assert s[|s| - 1] == text[|text| - 1];
    }
  }

  /** Which texts are read as a port: the digits of a number up to 65535, with or without a plus sign. */
  lemma ReadU16Iff(text: string, port: nat)
    ensures ReadU16(text) == Some(port) <==>
            exists digits :: (text == digits || text == "+" + digits)
              && digits != "" && AllDigits(digits) && ValueOf(digits) == port && port <= 65535
  {
    if ReadU16(text) == Some(port) {
      var digits := if |text| > 1 && text[0] == '+' then text[1..] else text;
      assert text == digits || text == "+" + digits;
    }
    if digits :|
         && (text == digits || text == "+" + digits)
         && digits != "" && AllDigits(digits) && ValueOf(digits) == port && port <= 65535
    {
      assert digits[0] != '+';
      if text == "+" + digits {
        assert text[0] == '+' && text[1..] == digits;
      }
    }
  }

  ghost predicate Denotes(endpoint: string, host: string, text: string, port: nat) {
    endpoint == host + ":" + text && ':' !in text && ReadU16(text) == Some(port)
  }

  lemma DenotedIsParsed(endpoint: string, host: string, text: string, port: nat)
    requires Denotes(endpoint, host, text, port)
    ensures ParseEndpoint(endpoint) == Ok((host, port))
  {
    LastColonOfJoin(host, text);
    assert endpoint[|host| + 1..] == text && endpoint[..|host|] == host;
  }

  /** Parsing succeeds with (host, port) exactly on host, a colon, and a colon-free port text: the
      host may itself contain colons. */
  lemma ParseEndpointExact(endpoint: string, host: string, port: nat)
    ensures ParseEndpoint(endpoint) == Ok((host, port)) <==> exists text :: Denotes(endpoint, host, text, port)
  {
    if ParseEndpoint(endpoint) == Ok((host, port)) {
      var i := LastColon(endpoint).value;
      hide ReadU16;
      assert endpoint == endpoint[..i] + ":" + endpoint[i + 1..];
      assert Denotes(endpoint, host, endpoint[i + 1..], port);
    }
    if text :| Denotes(endpoint, host, text, port) {
      DenotedIsParsed(endpoint, host, text, port);
    }
  }

  /** A registered `host:port` is read back exactly, for every host and 16-bit port, and the query
      side reaches the executor's SQL service precisely when the port leaves room for the offset. */
  lemma EndpointRoundTrip(host: string, port: nat)
    requires port <= 65535
    ensures ParseEndpoint(host + ":" + Numeral(port)) == Ok((host, port))
    ensures SqlAddress(host + ":" + Numeral(port)) == if port < 65535 then Ok((host, port + 1)) else Err(PortOverflow)
  {
    var text := Numeral(port);
    NumeralRoundTrip(port);
    assert text[0] != '+';
    assert ReadU16(text) == Some(port);
    DenotedIsParsed(host + ":" + text, host, text, port);
  }
}
