/** The command-line options of src/main.rs: each option is looked up by the first
    argument equal to its flag, its value is the argument right after it, and anything
    missing or unparsable falls back to the built-in default. */
module Config {
  import opened Wrappers
  import opened Decimal

  const DATABASE_URL_FLAG: string := "--database-url"
  const PORT_FLAG: string := "--port"
  const SCRAPE_INTERVAL_FLAG: string := "--scrape-interval"

  const DEFAULT_DATABASE_URL: string := "sqlite:markets.db"
  const DEFAULT_API_PORT: nat := 3000
  const DEFAULT_SCRAPE_INTERVAL_SECS: nat := 30

  /** `args.iter().position(|a| a == flag)`, searching from index `from`. */
  function PositionFrom(args: seq<string>, flag: string, from: nat): (r: Option<nat>)
    requires from <= |args|
    ensures r.Some? ==> from <= r.value < |args| && args[r.value] == flag
    ensures r.Some? ==> forall i :: from <= i < r.value ==> args[i] != flag
    ensures r.None? <==> forall i :: from <= i < |args| ==> args[i] != flag
    decreases |args| - from
  {
    if from == |args| then None
    else if args[from] == flag then Some(from)
    else PositionFrom(args, flag, from + 1)
  }

  /** `.position(..).and_then(|i| args.get(i + 1))`: the argument after the first `flag`. */
  function FlagValue(args: seq<string>, flag: string): Option<string> {
    match PositionFrom(args, flag, 0)
    case Some(i) => if i + 1 < |args| then Some(args[i + 1]) else None
    case None => None
  }

  /** The first occurrence of a flag decides; a flag that is absent, or is the last
      argument, gives no value. */
  lemma FlagValueRule(args: seq<string>, flag: string, i: nat)
    requires i < |args| && args[i] == flag
    requires forall j :: 0 <= j < i ==> args[j] != flag
    ensures i + 1 < |args| ==> FlagValue(args, flag) == Some(args[i + 1])
    ensures i + 1 == |args| ==> FlagValue(args, flag) == None
  {
    var p := PositionFrom(args, flag, 0);
    assert p.Some?;
    assert p.value == i;
  }

  lemma FlagAbsent(args: seq<string>, flag: string)
    requires forall j :: 0 <= j < |args| ==> args[j] != flag
    ensures FlagValue(args, flag) == None
  {
  }

  /** `--database-url`, taken as given. */
  function DatabaseUrl(args: seq<string>): (url: string)
    ensures FlagValue(args, DATABASE_URL_FLAG).Some? ==> url == FlagValue(args, DATABASE_URL_FLAG).value
    ensures FlagValue(args, DATABASE_URL_FLAG).None? ==> url == DEFAULT_DATABASE_URL
  {
    FlagValue(args, DATABASE_URL_FLAG).GetOr(DEFAULT_DATABASE_URL)
  }

  /** `--port`, parsed as a u16; an unparsable or out-of-range value gives 3000. */
  function ApiPort(args: seq<string>): (port: nat)
    ensures port <= U16_MAX
    ensures FlagValue(args, PORT_FLAG).None? ==> port == DEFAULT_API_PORT
    ensures FlagValue(args, PORT_FLAG).Some? ==>
              port == ParseUnsigned(FlagValue(args, PORT_FLAG).value, U16_MAX).GetOr(DEFAULT_API_PORT)
  {
    match FlagValue(args, PORT_FLAG)
    case Some(s) => ParseUnsigned(s, U16_MAX).GetOr(DEFAULT_API_PORT)
    case None => DEFAULT_API_PORT
  }

  /** `--scrape-interval`, parsed as a u64 number of seconds; otherwise 30. */
  function ScrapeInterval(args: seq<string>): (secs: nat)
    ensures secs <= U64_MAX
    ensures FlagValue(args, SCRAPE_INTERVAL_FLAG).None? ==> secs == DEFAULT_SCRAPE_INTERVAL_SECS
    ensures FlagValue(args, SCRAPE_INTERVAL_FLAG).Some? ==>
              secs == ParseUnsigned(FlagValue(args, SCRAPE_INTERVAL_FLAG).value, U64_MAX).GetOr(DEFAULT_SCRAPE_INTERVAL_SECS)
  {
    match FlagValue(args, SCRAPE_INTERVAL_FLAG)
    case Some(s) => ParseUnsigned(s, U64_MAX).GetOr(DEFAULT_SCRAPE_INTERVAL_SECS)
    case None => DEFAULT_SCRAPE_INTERVAL_SECS
  }

  /** Any port written in decimal after the first `--port` is the port used, and one
      that does not fit a u16 gives the default. */
  lemma ApiPortFromDecimal(args: seq<string>, i: nat, p: nat)
    requires i + 1 < |args| && args[i] == PORT_FLAG && args[i + 1] == NatToDecimal(p)
    requires forall j :: 0 <= j < i ==> args[j] != PORT_FLAG
    ensures p <= U16_MAX ==> ApiPort(args) == p
    ensures p > U16_MAX ==> ApiPort(args) == DEFAULT_API_PORT
  {
    FlagValueRule(args, PORT_FLAG, i);
    if p <= U16_MAX {
      ParseUnsignedRoundTrip(p, U16_MAX);
    } else {
      ParseUnsignedOverflow(p, U16_MAX);
    }
  }

  /** A negative port is not a u16 and gives the default. */
  lemma ApiPortNegative(args: seq<string>, i: nat)
    requires i + 1 < |args| && args[i] == PORT_FLAG && |args[i + 1]| >= 1 && args[i + 1][0] == '-'
    requires forall j :: 0 <= j < i ==> args[j] != PORT_FLAG
    ensures ApiPort(args) == DEFAULT_API_PORT
  {
    FlagValueRule(args, PORT_FLAG, i);
    ParseUnsignedRejectsSign(args[i + 1], U16_MAX);
  }

  /** Any u64 written in decimal after the first `--scrape-interval` is the interval used. */
  lemma ScrapeIntervalFromDecimal(args: seq<string>, i: nat, n: nat)
    requires i + 1 < |args| && args[i] == SCRAPE_INTERVAL_FLAG && args[i + 1] == NatToDecimal(n)
    requires forall j :: 0 <= j < i ==> args[j] != SCRAPE_INTERVAL_FLAG
    ensures n <= U64_MAX ==> ScrapeInterval(args) == n
    ensures n > U64_MAX ==> ScrapeInterval(args) == DEFAULT_SCRAPE_INTERVAL_SECS
  {
    FlagValueRule(args, SCRAPE_INTERVAL_FLAG, i);
    if n <= U64_MAX {
      ParseUnsignedRoundTrip(n, U64_MAX);
    } else {
      ParseUnsignedOverflow(n, U64_MAX);
    }
  }

  /** With no options at all, every setting is its default. */
  lemma NoOptionsDefaults(program: string)
    ensures DatabaseUrl([program]) == DEFAULT_DATABASE_URL
    ensures ApiPort([program]) == DEFAULT_API_PORT
    ensures ScrapeInterval([program]) == DEFAULT_SCRAPE_INTERVAL_SECS
  {
  }
}
