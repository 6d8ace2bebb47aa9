/** The beacon-node client (src/lighthouse.rs): the endpoint configuration,
    the URLs built from it, the subscribe loop that retries every five seconds
    until the event feed accepts the subscription, and `run`, which takes the
    first event of the subscription. */
module Lighthouse {
  import opened Primitives
  import BlockEnvs

  // ---------------------------------------------------------------------
  // Decimal text of a number, as `Display` writes integers

  predicate IsDigit(c: char)
  {
    '0' <= c <= '9'
  }

  function DigitChar(d: nat): (c: char)
    requires d < 10
    ensures IsDigit(c)
  {
    ('0' as int + d) as char
  }

  function DigitValue(c: char): nat
    requires IsDigit(c)
  {
    c as int - '0' as int
  }

  /** The shortest decimal text of n: digits only, no leading zero. */
  function Decimal(n: nat): (s: string)
    ensures |s| >= 1
    ensures forall i | 0 <= i < |s| :: IsDigit(s[i])
    ensures s[0] == '0' ==> n == 0 && s == "0"
  {
    if n < 10 then [DigitChar(n)] else Decimal(n / 10) + [DigitChar(n % 10)]
  }

  /** The number a string of digits denotes. */
  function DigitsValue(s: string): nat
    requires forall i | 0 <= i < |s| :: IsDigit(s[i])
  {
    if s == [] then 0 else DigitsValue(s[..|s| - 1]) * 10 + DigitValue(s[|s| - 1])
  }

  /** Reads back a canonical decimal text: non-empty, digits only, and no
      leading zero unless the text is "0". */
  function ParseDecimal(s: string): Option<nat>
  {
    if s == [] || (exists i | 0 <= i < |s| :: !IsDigit(s[i])) || (|s| > 1 && s[0] == '0') then None
    else Some(DigitsValue(s))
  }

  lemma {:induction false} DigitsValueOfDecimal(n: nat)
    ensures DigitsValue(Decimal(n)) == n
  {
    if n >= 10 {
      DigitsValueOfDecimal(n / 10);
      var s := Decimal(n);
      assert s[..|s| - 1] == Decimal(n / 10);
    }
  }

  /** Decimal text reads back as the number it was written from. */
  lemma DecimalRoundTrip(n: nat)
    ensures ParseDecimal(Decimal(n)) == Some(n)
  {
    DigitsValueOfDecimal(n);
  }

  lemma {:induction false} DigitsValueZero(s: string)
    requires forall i | 0 <= i < |s| :: IsDigit(s[i])
    requires DigitsValue(s) == 0
    ensures forall i | 0 <= i < |s| :: s[i] == '0'
  {
    if s != [] {
      DigitsValueZero(s[..|s| - 1]);
      assert forall i | 0 <= i < |s| - 1 :: s[i] == s[..|s| - 1][i];
    }
  }

  /** A text ParseDecimal accepts is exactly the decimal text of its value:
      the decimal writing is onto the canonical texts. */
  lemma {:induction false} ParseDecimalCanonical(s: string)
    requires ParseDecimal(s).Some?
    ensures Decimal(ParseDecimal(s).value) == s
  {
    var n := DigitsValue(s);
    if |s| == 1 {
      assert DigitsValue(s) == DigitValue(s[0]) by {
        assert s[..0] == [];
      }
      assert DigitChar(DigitValue(s[0])) == s[0];
    } else {
      var init := s[..|s| - 1];
      assert forall i | 0 <= i < |init| :: IsDigit(init[i]) by {
        forall i | 0 <= i < |init| ensures IsDigit(init[i]) {
          assert init[i] == s[i];
        }
      }
      assert init[0] == s[0];
      assert ParseDecimal(init) == Some(DigitsValue(init));
      ParseDecimalCanonical(init);
      if DigitsValue(init) == 0 {
        DigitsValueZero(init);
        assert false;
      }
      var last := s[|s| - 1];
      assert n == DigitsValue(init) * 10 + DigitValue(last);
      assert n / 10 == DigitsValue(init) && n % 10 == DigitValue(last);
      assert DigitChar(DigitValue(last)) == last;
      assert Decimal(n) == Decimal(DigitsValue(init)) + [last];
      assert s == init + [last];
    }
  }

  /** First split of s at sep: the text before the first sep and after it. */
  function SplitFirst(s: string, sep: char): Option<(string, string)>
  {
    if s == [] then None
    else if s[0] == sep then Some(([], s[1..]))
    else
      match SplitFirst(s[1..], sep)
      case None => None
      case Some(parts) => Some(([s[0]] + parts.0, parts.1))
  }

  lemma {:induction false} SplitFirstAtSeparator(a: string, sep: char, b: string)
    requires sep !in a
    ensures SplitFirst(a + [sep] + b, sep) == Some((a, b))
  {
    if a != [] {
      SplitFirstAtSeparator(a[1..], sep, b);
      var s := a + [sep] + b;
      assert s[0] == a[0] && a[0] != sep;
      assert s[1..] == a[1..] + [sep] + b;
      assert [a[0]] + a[1..] == a;
    } else {
      assert a + [sep] + b == [sep] + b;
    }
  }

  lemma DecimalHasNo(n: nat, c: char)
    requires !IsDigit(c)
    ensures c !in Decimal(n)
  {
  }

  // ---------------------------------------------------------------------
  // Endpoint configuration and URLs

  datatype Ipv4Addr = Ipv4Addr(a: Byte, b: Byte, c: Byte, d: Byte)

  const LOCALHOST: Ipv4Addr := Ipv4Addr(127, 0, 0, 1)

  const DEFAULT_PORT: U16 := 5052

  datatype BeaconEventsConfig = BeaconEventsConfig(clAddr: Ipv4Addr, clPort: U16)

  /** `new`: the beacon node on the local host at port 5052. */
  function New(): (config: BeaconEventsConfig)
    ensures config.clAddr == Ipv4Addr(127, 0, 0, 1) && config.clPort == 5052
  {
    BeaconEventsConfig(LOCALHOST, DEFAULT_PORT)
  }

  /** Dotted-quad text of an IPv4 address. */
  function Ipv4Text(addr: Ipv4Addr): string
  {
    Decimal(addr.a) + "." + Decimal(addr.b) + "." + Decimal(addr.c) + "." + Decimal(addr.d)
  }

  const EVENTS_PATH: string := "/eth/v1/events"

  const PAYLOAD_ATTRIBUTES_QUERY: string := "?topics=payload_attributes"

  /** `http_base_url`: http://, the dotted-quad address, a colon and the port.
      The URL determines the endpoint: it reads back as the address and port. */
  function HttpBaseUrl(config: BeaconEventsConfig): (url: string)
    ensures ParseHttpBaseUrl(url) == Some(config)
  {
    BaseUrlTextRoundTrip(config.clAddr, config.clPort);
    BaseUrlText(config.clAddr, config.clPort)
  }

  function BaseUrlText(addr: Ipv4Addr, port: U16): string
  {
    "http://" + Ipv4Text(addr) + ":" + Decimal(port)
  }

  /** `events_url`: the events endpoint below the base URL. */
  function EventsUrl(config: BeaconEventsConfig): (url: string)
    ensures |url| >= |EVENTS_PATH|
    ensures url[|url| - |EVENTS_PATH|..] == EVENTS_PATH
    ensures url[..|url| - |EVENTS_PATH|] == HttpBaseUrl(config)
  {
    var base := HttpBaseUrl(config);
    assert (base + EVENTS_PATH)[..|base|] == base;
    assert (base + EVENTS_PATH)[|base|..] == EVENTS_PATH;
    base + EVENTS_PATH
  }

  /** The URL the subscription requests: the events endpoint filtered to the
      payload-attributes topic. */
  function SubscriptionUrl(config: BeaconEventsConfig): (url: string)
    ensures |url| >= |EVENTS_PATH + PAYLOAD_ATTRIBUTES_QUERY|
    ensures url[|url| - |EVENTS_PATH + PAYLOAD_ATTRIBUTES_QUERY|..] == EVENTS_PATH + PAYLOAD_ATTRIBUTES_QUERY
    ensures url[..|url| - |EVENTS_PATH + PAYLOAD_ATTRIBUTES_QUERY|] == HttpBaseUrl(config)
  {
    var events := EventsUrl(config);
    var base := events[..|events| - |EVENTS_PATH|];
    assert events == base + EVENTS_PATH;
    var url := events + PAYLOAD_ATTRIBUTES_QUERY;
    assert url == base + (EVENTS_PATH + PAYLOAD_ATTRIBUTES_QUERY);
    assert url[..|base|] == base;
    assert url[|base|..] == EVENTS_PATH + PAYLOAD_ATTRIBUTES_QUERY;
    url
  }

  function ParseByte(s: string): Option<Byte>
  {
    match ParseDecimal(s)
    case Some(n) => if n < 256 then Some(n) else None
    case None => None
  }

  function ParseIpv4(s: string): Option<Ipv4Addr>
  {
    match SplitFirst(s, '.')
    case None => None
    case Some(p1) =>
      match SplitFirst(p1.1, '.')
      case None => None
      case Some(p2) =>
        match SplitFirst(p2.1, '.')
        case None => None
        case Some(p3) =>
          match (ParseByte(p1.0), ParseByte(p2.0), ParseByte(p3.0), ParseByte(p3.1))
          case (Some(a), Some(b), Some(c), Some(d)) => Some(Ipv4Addr(a, b, c, d))
          case _ => None
  }

  /** Reads the endpoint back from a base URL of the form http://a.b.c.d:port. */
  function ParseHttpBaseUrl(url: string): Option<BeaconEventsConfig>
  {
    if |url| < 7 || url[..7] != "http://" then None
    else
      match SplitFirst(url[7..], ':')
      case None => None
      case Some(parts) =>
        match (ParseIpv4(parts.0), ParseDecimal(parts.1))
        case (Some(addr), Some(port)) => if port < TWO_16 then Some(BeaconEventsConfig(addr, port)) else None
        case _ => None
  }

  lemma Ipv4TextRoundTrip(addr: Ipv4Addr)
    ensures ParseIpv4(Ipv4Text(addr)) == Some(addr)
  {
    var da, db, dc, dd := Decimal(addr.a), Decimal(addr.b), Decimal(addr.c), Decimal(addr.d);
    DecimalHasNo(addr.a, '.');
    DecimalHasNo(addr.b, '.');
    DecimalHasNo(addr.c, '.');
    DecimalRoundTrip(addr.a);
    DecimalRoundTrip(addr.b);
    DecimalRoundTrip(addr.c);
    DecimalRoundTrip(addr.d);
    var r3 := dc + "." + dd;
    var r2 := db + "." + r3;
    assert Ipv4Text(addr) == da + ['.'] + r2;
    SplitFirstAtSeparator(da, '.', r2);
    assert r2 == db + ['.'] + r3;
    SplitFirstAtSeparator(db, '.', r3);
    assert r3 == dc + ['.'] + dd;
    SplitFirstAtSeparator(dc, '.', dd);
  }

  /** The text of a base URL reads back as the address and port written into it. */
  lemma BaseUrlTextRoundTrip(addr: Ipv4Addr, port: U16)
    ensures ParseHttpBaseUrl(BaseUrlText(addr, port)) == Some(BeaconEventsConfig(addr, port))
  {
    var host, portText := Ipv4Text(addr), Decimal(port);
    var url := BaseUrlText(addr, port);
    assert url[..7] == "http://";
    assert url[7..] == host + [':'] + portText;
    assert ':' !in host by {
      DecimalHasNo(addr.a, ':');
      DecimalHasNo(addr.b, ':');
      DecimalHasNo(addr.c, ':');
      DecimalHasNo(addr.d, ':');
    }
    SplitFirstAtSeparator(host, ':', portText);
    Ipv4TextRoundTrip(addr);
    DecimalRoundTrip(port);
    assert SplitFirst(url[7..], ':') == Some((host, portText));
  }

  /** Distinct endpoints get distinct subscription URLs. */
  lemma SubscriptionUrlInjective(c1: BeaconEventsConfig, c2: BeaconEventsConfig)
    requires SubscriptionUrl(c1) == SubscriptionUrl(c2)
    ensures c1 == c2
  {
  }

  /** The default client subscribes at the local beacon node's events endpoint,
      filtered to the payload-attributes topic. */
  lemma DefaultSubscriptionUrl()
    ensures SubscriptionUrl(New()) == "http://127.0.0.1:5052" + "/eth/v1/events" + "?topics=payload_attributes"
  {
    calc {
      SubscriptionUrl(New());
    ==
      BaseUrlText(LOCALHOST, DEFAULT_PORT) + EVENTS_PATH + PAYLOAD_ATTRIBUTES_QUERY;
    == { assert BaseUrlText(LOCALHOST, DEFAULT_PORT) == "http://127.0.0.1:5052"; }
      "http://127.0.0.1:5052" + "/eth/v1/events" + "?topics=payload_attributes";
    }
  }

  // ---------------------------------------------------------------------
  // Subscription with retry, and the first event

  datatype SseError = ConnectionFailed | StatusCode(code: U16) | StreamError

  /** The data of a payload-attributes event. */
  datatype PayloadAttributesEvent = PayloadAttributesEvent(
    version: string,
    proposalSlot: U64,
    parentBlockNumber: U64,
    parentBlockHash: B256,
    payloadAttributes: BlockEnvs.PayloadAttributes)

  /** The items an event stream yields, in order (a finite prefix of it). */
  type EventStream = seq<Result<PayloadAttributesEvent, SseError>>

  /** What one subscribe attempt returns. */
  datatype SubscribeOutcome = Subscribed(stream: EventStream) | SubscribeFailed(error: SseError)

  const RETRY_DELAY_SECS: nat := 5

  /** The index of the first attempt that subscribes, if any. */
  function FirstSubscribed(attempts: seq<SubscribeOutcome>): (k: Option<nat>)
    ensures k.Some? ==>
      && k.value < |attempts|
      && attempts[k.value].Subscribed?
      && forall j | 0 <= j < k.value :: attempts[j].SubscribeFailed?
    ensures k.None? ==> forall j | 0 <= j < |attempts| :: attempts[j].SubscribeFailed?
  {
    if attempts == [] then None
    else if attempts[0].Subscribed? then Some(0)
    else
      match FirstSubscribed(attempts[1..])
      case None => None
      case Some(k) => Some(k + 1)
  }

  /** No retry bound: however many failures come first, the first success is
      the one taken. */
  lemma FirstSubscribedAfterFailures(failures: seq<SubscribeOutcome>, stream: EventStream, later: seq<SubscribeOutcome>)
    requires forall j | 0 <= j < |failures| :: failures[j].SubscribeFailed?
    ensures FirstSubscribed(failures + [Subscribed(stream)] + later) == Some(|failures|)
  {
    var attempts := failures + [Subscribed(stream)] + later;
    assert attempts[|failures|] == Subscribed(stream);
    assert forall j | 0 <= j < |failures| :: attempts[j] == failures[j];
  }

  /** `new_payload_attributes_subscription`, driven by the outcomes of the
      successive subscribe attempts. Every attempt requests the subscription
      URL; every failed attempt is followed by a five-second sleep. When the
      given outcomes run out without a success the source would go on
      retrying; the model then returns no subscription. */
  method NewPayloadAttributesSubscription(config: BeaconEventsConfig, attempts: seq<SubscribeOutcome>)
    returns (subscription: Option<EventStream>, requested: seq<string>, sleeps: seq<nat>)
    ensures forall u | u in requested :: u == SubscriptionUrl(config)
    ensures forall d | d in sleeps :: d == RETRY_DELAY_SECS
    ensures FirstSubscribed(attempts).Some? ==>
      var k := FirstSubscribed(attempts).value;
      && subscription == Some(attempts[k].stream)
      && |requested| == k + 1
      && |sleeps| == k
    ensures FirstSubscribed(attempts).None? ==>
      subscription == None && |requested| == |attempts| && |sleeps| == |attempts|
  {
    var payloadsUrl := SubscriptionUrl(config);
    requested, sleeps := [], [];
    var i := 0;
    while i < |attempts|
      invariant 0 <= i <= |attempts|
      invariant forall j | 0 <= j < i :: attempts[j].SubscribeFailed?
      invariant |requested| == i && |sleeps| == i
      invariant forall u | u in requested :: u == payloadsUrl
      invariant forall d | d in sleeps :: d == RETRY_DELAY_SECS
    {
      requested := requested + [payloadsUrl];
      match attempts[i] {
        case Subscribed(stream) =>
          FirstSubscribedAfterFailures(attempts[..i], stream, attempts[i + 1..]);
          assert attempts == attempts[..i] + [Subscribed(stream)] + attempts[i + 1..];
          subscription := Some(stream);
          return;
        case SubscribeFailed(_) =>
          sleeps := sleeps + [RETRY_DELAY_SECS];
      }
      i := i + 1;
    }
    subscription := None;
  }

  datatype RunOutcome =
    | StillRetrying
    | StreamEnded
    | Received(event: Result<PayloadAttributesEvent, SseError>)

  /** `run`: subscribe (retrying), then return the first item of the stream
      and drop the subscription. A stream that ends before any item makes the
      source's unwrap abort (StreamEnded). */
  method Run(config: BeaconEventsConfig, attempts: seq<SubscribeOutcome>) returns (outcome: RunOutcome)
    ensures FirstSubscribed(attempts).None? <==> outcome == StillRetrying
    ensures FirstSubscribed(attempts).Some? ==>
      var stream := attempts[FirstSubscribed(attempts).value].stream;
      outcome == if stream == [] then StreamEnded else Received(stream[0])
  {
    var subscription, _, _ := NewPayloadAttributesSubscription(config, attempts);
    match subscription {
      case None =>
        outcome := StillRetrying;
      case Some(stream) =>
        if stream == [] {
          outcome := StreamEnded;
        } else {
          outcome := Received(stream[0]);
        }
    }
  }
}
