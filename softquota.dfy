/**
 * softquota.py: turn a human-readable size such as `10G` into a byte count
 * (powers of 1024, or of 1000 with `--metric`), add up the bytes used on the
 * given mounts and raise the alarm when the sum is strictly above the quota.
 */
module SoftQuota {

  import opened Common
  import opened Strings

  /** Why a size string could not be converted: `s[-1]` on an empty string
      (IndexError), a number part that is not a decimal integer (ValueError),
      or a suffix that is not in the prefix table (KeyError). */
  datatype QuotaError = EmptySize | NotAnInteger(text: string) | UnknownPrefix(prefix: Option<char>)

  /** `HumanReadableSizeConverter`: its only state is the base set in `__init__`. */
  datatype Converter = Converter(base: nat)

  /** `PREFIX_EXPONENTS`: no prefix stands for the exponent 0. */
  const PrefixExponents: map<Option<char>, nat> :=
    map[None := 0, Some('K') := 1, Some('M') := 2, Some('G') := 3, Some('T') := 4,
        Some('P') := 5, Some('E') := 6, Some('Z') := 7, Some('Y') := 8]

  function Pow(b: nat, e: nat): nat {
    if e == 0 then 1 else b * Pow(b, e - 1)
  }

  /** `__init__(metric)`. */
  function NewConverter(metric: bool): (c: Converter)
    ensures c.base == 1000 || c.base == 1024
    ensures c.base == 1000 <==> metric
  {
    if metric then Converter(1000) else Converter(1024)
  }

  /** `factor_for_prefix`: the base raised to the prefix's exponent; a prefix
      outside the table raises. */
  function FactorForPrefix(c: Converter, prefix: Option<char>): (r: Result<nat, QuotaError>)
    ensures r.Ok? <==> prefix in PrefixExponents
    ensures r.Err? ==> r.error == UnknownPrefix(prefix)
  {
    if prefix in PrefixExponents then Ok(Pow(c.base, PrefixExponents[prefix]))
    else Err(UnknownPrefix(prefix))
  }

  /** `has_prefix`: the last character is not one of `0`..`9`. */
  function HasPrefix(s: string): (r: Result<bool, QuotaError>)
    ensures r.Err? <==> s == []
    ensures r.Err? ==> r.error == EmptySize
    ensures r.Ok? ==> (r.value <==> !IsDigit(s[|s| - 1]))
  {
    if s == [] then Err(EmptySize) else Ok(!IsDigit(s[|s| - 1]))
  }

  /** `get_prefix_from_human_readable`. */
  function GetPrefix(s: string): (r: Result<Option<char>, QuotaError>)
    ensures r.Err? <==> s == []
    ensures r.Ok? && r.value.Some? ==> r.value.value == s[|s| - 1] && !IsDigit(s[|s| - 1])
    ensures r.Ok? && r.value.None? ==> IsDigit(s[|s| - 1])
  {
    match HasPrefix(s)
    case Err(e) => Err(e)
    case Ok(has) => if has then Ok(Some(s[|s| - 1])) else Ok(None)
  }

  /** `extract_int_from_human_readable`: `int()` of the string without its prefix. */
  function ExtractInt(s: string): (r: Result<nat, QuotaError>)
    ensures r.Ok? <==> |s| > 0 && if IsDigit(s[|s| - 1]) then AllDigits(s) else |s| > 1 && AllDigits(s[..|s| - 1])
    ensures r.Err? && s == [] ==> r.error == EmptySize
    ensures r.Err? && s != [] ==> r.error == NotAnInteger(if IsDigit(s[|s| - 1]) then s else s[..|s| - 1])
    ensures r.Ok? && IsDigit(s[|s| - 1]) ==> AllDigits(s) && r.value == DecimalValue(s)
    ensures r.Ok? && !IsDigit(s[|s| - 1]) ==> AllDigits(s[..|s| - 1]) && r.value == DecimalValue(s[..|s| - 1])
  {
    match HasPrefix(s)
    case Err(e) => Err(e)
    case Ok(has) =>
      var digits := if has then s[..|s| - 1] else s;
      match ParseNat(digits)
      case None => Err(NotAnInteger(digits))
      case Some(n) => Ok(n)
  }

  /** `human_readable_to_bytes`: the prefix is looked up first, then the number
      is parsed, then the factor is looked up. */
  function HumanReadableToBytes(c: Converter, s: string): (r: Result<nat, QuotaError>)
    ensures r.Ok? <==> GetPrefix(s).Ok? && ExtractInt(s).Ok? && GetPrefix(s).value in PrefixExponents
    ensures r.Err? && s == [] ==> r.error == EmptySize
    ensures r.Err? && ExtractInt(s).Err? ==> r.error == ExtractInt(s).error
    ensures r.Err? && ExtractInt(s).Ok? ==> r.error == UnknownPrefix(Some(s[|s| - 1]))
    ensures r.Ok? ==> (GetPrefix(s).value in PrefixExponents
      && r.value == ExtractInt(s).value * Pow(c.base, PrefixExponents[GetPrefix(s).value]))
  {
    match GetPrefix(s)
    case Err(e) => Err(e)
    case Ok(prefix) =>
      match ExtractInt(s)
      case Err(e) => Err(e)
      case Ok(number) =>
        match FactorForPrefix(c, prefix)
        case Err(e) => Err(e)
        case Ok(factor) => Ok(number * factor)
  }

  /** The size written the way `human_readable_to_bytes` reads it: the decimal
      number followed by the prefix letter, if any. */
  function Render(n: nat, prefix: Option<char>): string {
    DecimalString(n) + (if prefix.Some? then [prefix.value] else [])
  }

  /** Reading back a rendered size gives the number times the factor of its
      prefix; with no prefix it gives the number itself. */
  lemma RenderedSizeRoundTrip(c: Converter, n: nat, prefix: Option<char>)
    requires prefix in PrefixExponents
    ensures HumanReadableToBytes(c, Render(n, prefix)) == Ok(n * Pow(c.base, PrefixExponents[prefix]))
    ensures prefix == None ==> HumanReadableToBytes(c, Render(n, prefix)) == Ok(n)
  {
    var s := Render(n, prefix);
    var d := DecimalString(n);
    DecimalRoundTrip(n);
    if prefix.Some? {
      assert s[..|s| - 1] == d;
      assert !IsDigit(s[|s| - 1]);
    } else {
      assert s == d;
    }
  }

  /** The factors the table yields for both bases: 1 without a prefix,
      the base itself for `K`, its cube for `G` and its eighth power for `Y`. */
  lemma FactorTable()
    ensures FactorForPrefix(NewConverter(false), None) == Ok(1)
    ensures FactorForPrefix(NewConverter(false), Some('K')) == Ok(1024)
    ensures FactorForPrefix(NewConverter(false), Some('G')) == Ok(1073741824)
    ensures FactorForPrefix(NewConverter(false), Some('Y')) == Ok(1208925819614629174706176)
    ensures FactorForPrefix(NewConverter(true), Some('K')) == Ok(1000)
    ensures FactorForPrefix(NewConverter(true), Some('G')) == Ok(1000000000)
    ensures FactorForPrefix(NewConverter(true), Some('Y')) == Ok(1000000000000000000000000)
  {
    assert Pow(1024, 3) == 1073741824;
    assert Pow(1024, 8) == 1208925819614629174706176 by {
      assert Pow(1024, 4) == 1099511627776;
    }
    assert Pow(1000, 8) == 1000000000000000000000000 by {
      assert Pow(1000, 4) == 1000000000000;
    }
  }

  /** A suffix that is not an upper-case table letter, lower-case `k` among
      them, is an error even after a valid number. */
  lemma LowerCaseKRejected(c: Converter, n: nat)
    ensures HumanReadableToBytes(c, DecimalString(n) + ['k']) == Err(UnknownPrefix(Some('k')))
  {
    var s := DecimalString(n) + ['k'];
    assert s[..|s| - 1] == DecimalString(n);
  }

  /** A prefix letter alone has no number in front of it. */
  lemma PrefixAloneRejected(c: Converter)
    ensures HumanReadableToBytes(c, "G") == Err(NotAnInteger(""))
  {
  }

  // ---------------------------------------------------------------------------
  // bytes used and the quota comparison
  // ---------------------------------------------------------------------------

  /** The fields of `statvfs` the script reads. */
  datatype StatVfs = StatVfs(blocks: nat, bfree: nat, frsize: nat)

  /** `get_bytes_used_from_statvfs`: used blocks times the fragment size. */
  function BytesUsed(st: StatVfs): (r: int)
    ensures st.bfree <= st.blocks ==> 0 <= r <= st.blocks * st.frsize
    ensures st.frsize == 0 || st.bfree == st.blocks ==> r == 0
  {
    (st.blocks - st.bfree) * st.frsize
  }

  /** `sum(map(get_bytes_used_from_statvfs, mounts_stats))`. */
  function TotalUsed(stats: seq<StatVfs>): int {
    if stats == [] then 0 else TotalUsed(stats[..|stats| - 1]) + BytesUsed(stats[|stats| - 1])
  }

  lemma {:induction false} TotalUsedConcat(a: seq<StatVfs>, b: seq<StatVfs>)
    ensures TotalUsed(a + b) == TotalUsed(a) + TotalUsed(b)
    decreases |b|
  {
    if b == [] {
      assert a + b == a;
    } else {
      assert (a + b)[..|a + b| - 1] == a + b[..|b| - 1];
      TotalUsedConcat(a, b[..|b| - 1]);
    }
  }

  /** The comparison of the script's `__main__`: `Ok(true)` when the usage is
      strictly above the quota (the script then exits with status 1, see
      `MainEnding`), `Ok(false)` when it stays silent, `Err` when the quota
      argument cannot be converted. */
  function QuotaExceeded(metric: bool, quota: string, stats: seq<StatVfs>): (r: Result<bool, QuotaError>)
    ensures r.Ok? <==> HumanReadableToBytes(NewConverter(metric), quota).Ok?
    ensures r.Ok? ==> (r.value <==> TotalUsed(stats) > HumanReadableToBytes(NewConverter(metric), quota).value)
  {
    match HumanReadableToBytes(NewConverter(metric), quota)
    case Err(e) => Err(e)
    case Ok(maxQuota) => Ok(TotalUsed(stats) > maxQuota)
  }

  /** How the script's `__main__` ends once the quota is converted. */
  datatype Ending =
    | Silent            // usage at or below the quota: exit status 0
    | Critical          // the `logging.critical` report, then `exit(1)`
    | PrefixTypeError   // `str(converted_size) + None` raises: a traceback, exit status 1

  /** The script's `__main__` after the comparison: the report needs the
      quota's prefix letter, and `bytes_to_human_readable` raises a
      `TypeError` when there is none. */
  function MainEnding(metric: bool, quota: string, stats: seq<StatVfs>): (r: Result<Ending, QuotaError>)
    ensures r.Ok? <==> QuotaExceeded(metric, quota, stats).Ok?
    ensures r.Err? ==> r.error == QuotaExceeded(metric, quota, stats).error
    ensures r == Ok(Silent) <==> QuotaExceeded(metric, quota, stats) == Ok(false)
    ensures r == Ok(Critical) <==> QuotaExceeded(metric, quota, stats) == Ok(true) && !IsDigit(quota[|quota| - 1])
    ensures r == Ok(PrefixTypeError) <==> QuotaExceeded(metric, quota, stats) == Ok(true) && IsDigit(quota[|quota| - 1])
  {
    match QuotaExceeded(metric, quota, stats)
    case Err(e) => Err(e)
    case Ok(exceeded) =>
      if !exceeded then Ok(Silent)
      else if GetPrefix(quota).value.Some? then Ok(Critical)
      else Ok(PrefixTypeError)
  }

  /** A quota given as a bare number is never reported: once usage exceeds
      it, the script dies with the `TypeError` instead of the critical
      message. */
  lemma BareQuotaNeverReported(metric: bool, n: nat, stats: seq<StatVfs>)
    requires TotalUsed(stats) > n
    ensures MainEnding(metric, DecimalString(n), stats) == Ok(PrefixTypeError)
  {
    RenderedSizeRoundTrip(NewConverter(metric), n, None);
    assert Render(n, None) == DecimalString(n);
  }

  /** Usage exactly at the quota does not raise the alarm. */
  lemma AtQuotaIsNotExceeded(metric: bool, n: nat, prefix: Option<char>, stats: seq<StatVfs>)
    requires prefix in PrefixExponents
    requires TotalUsed(stats) == n * Pow(NewConverter(metric).base, PrefixExponents[prefix])
    ensures QuotaExceeded(metric, Render(n, prefix), stats) == Ok(false)
  {
    RenderedSizeRoundTrip(NewConverter(metric), n, prefix);
  }

  /** Adding a mount never silences an alarm. */
  lemma MoreMountsKeepAlarm(metric: bool, quota: string, stats: seq<StatVfs>, extra: StatVfs)
    requires extra.bfree <= extra.blocks
    requires QuotaExceeded(metric, quota, stats) == Ok(true)
    ensures QuotaExceeded(metric, quota, stats + [extra]) == Ok(true)
  {
    TotalUsedConcat(stats, [extra]);
    assert TotalUsed([extra]) == BytesUsed(extra) by {
      assert [extra][..0] == [];
    }
  }
}
