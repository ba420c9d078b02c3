/** ConservativeRuntimeBudget of src/contradictions.ts and the decimal texts it is configured from.
    Amounts are integer micro-dollars. */
module RuntimeBudget {
  import opened Prelude

  const MICRO_USD_PER_USD: nat := 1_000_000
  const PRICING_UNITS_PER_MILLION: nat := 1_000_000
  const MAX_SAFE_INTEGER: nat := 9_007_199_254_740_991

  // ---------------------------------------------------------------- decimal text

  predicate IsDigit(c: char) {
    '0' <= c <= '9'
  }

  /** The white space String.prototype.trim removes. */
  predicate IsSpace(c: char) {
    c in "\t\n\U{000b}\U{000c}\r \U{00a0}\U{1680}\U{2028}\U{2029}\U{202f}\U{205f}\U{3000}\U{feff}" ||
      '\U{2000}' <= c <= '\U{200a}'
  }

  predicate AllDigits(s: string) {
    forall i :: 0 <= i < |s| ==> IsDigit(s[i])
  }

  function TrimStart(s: string): string {
    if |s| > 0 && IsSpace(s[0]) then TrimStart(s[1..]) else s
  }

  function TrimEnd(s: string): string {
    if |s| > 0 && IsSpace(s[|s| - 1]) then TrimEnd(s[..|s| - 1]) else s
  }

  function Trim(s: string): string {
    TrimEnd(TrimStart(s))
  }

  /** BigInt(s) of a digit text; the empty text is zero. */
  function Digits(s: string): nat
    requires AllDigits(s)
  {
    if |s| == 0 then 0 else 10 * Digits(s[..|s| - 1]) + (s[|s| - 1] - '0') as nat
  }

  /** The text before the first point, and after it. */
  function Split(s: string): (r: (string, Option<string>))
    ensures r.1.None? ==> s == r.0
    ensures r.1.Some? ==> s == r.0 + "." + r.1.value
    ensures '.' !in r.0
  {
    if |s| == 0 then ("", None)
    else if s[0] == '.' then ("", Some(s[1..]))
    else var (a, b) := Split(s[1..]); ([s[0]] + a, b)
  }

  /** /^\d+(?:\.\d{1,6})?$/ */
  predicate IsAmount(s: string) {
    var (whole, fraction) := Split(s);
    |whole| > 0 && AllDigits(whole) && (fraction.Some? ==> 1 <= |fraction.value| <= 6 && AllDigits(fraction.value))
  }

  function Pad(s: string): (r: string)
    requires |s| <= 6 && AllDigits(s)
    ensures |r| == 6 && AllDigits(r) && s <= r
    decreases 6 - |s|
  {
    if |s| == 6 then s else Pad(s + "0")
  }

  function ParseUsdToMicroUsd(raw: Option<string>): Option<nat> {
    if raw.None? || |raw.value| == 0 || !IsAmount(Trim(raw.value)) then None
    else
      var (whole, fraction) := Split(Trim(raw.value));
      Some(Digits(whole) * MICRO_USD_PER_USD + Digits(Pad(Coalesce(fraction, ""))))
  }

  function Pow10(n: nat): nat {
    if n == 0 then 1 else 10 * Pow10(n - 1)
  }

  lemma ScaleSum(a: nat, p: nat, d: nat, e: nat)
    ensures 10 * (a * p + d) + e == a * (10 * p) + (10 * d + e)
  {
  }

  lemma {:induction false} DigitsJoin(a: string, b: string)
    requires AllDigits(a) && AllDigits(b)
    ensures AllDigits(a + b) && Digits(a + b) == Digits(a) * Pow10(|b|) + Digits(b)
  {
    if |b| == 0 {
      assert a + b == a;
    } else {
      var c := b[..|b| - 1];
      DigitsJoin(a, c);
      assert (a + b)[..|a + b| - 1] == a + c;
      var last := (b[|b| - 1] - '0') as nat;
      assert Digits(a + b) == 10 * Digits(a + c) + last;
      ScaleSum(Digits(a), Pow10(|c|), Digits(c), last);
    }
  }

  lemma DigitsOfZero(s: string)
    requires AllDigits(s)
    ensures AllDigits(s + "0") && Digits(s + "0") == 10 * Digits(s)
  {
  }

  lemma {:induction false} DigitsOfPad(s: string)
    requires |s| <= 6 && AllDigits(s)
    ensures Digits(Pad(s)) == Digits(s) * Pow10(6 - |s|)
    decreases 6 - |s|
  {
    hide Digits;
    if |s| < 6 {
      DigitsOfZero(s);
      DigitsOfPad(s + "0");
      ScaleSum(Digits(s), Pow10(5 - |s|), 0, 0);
      assert Pow10(6 - |s|) == 10 * Pow10(5 - |s|);
    }
  }

  /** Exactly the texts of the grammar are amounts: digits, with at most six after a point. */
  lemma AmountIff(s: string)
    ensures IsAmount(s) <==>
      || (|s| > 0 && AllDigits(s))
      || exists w, f :: Decimal(s, w, f) && |w| > 0 && 1 <= |f| <= 6
  {
    if IsAmount(s) && Split(s).1.Some? {
      assert Decimal(s, Split(s).0, Split(s).1.value);
    }
    if |s| > 0 && AllDigits(s) { SplitDigits(s); }
    forall w, f | Decimal(s, w, f) ensures Split(s) == (w, Some(f)) {
      SplitDecimal(w, f);
    }
  }

  predicate Decimal(s: string, w: string, f: string) {
    s == w + "." + f && AllDigits(w) && AllDigits(f)
  }

  lemma {:induction false} SplitDigits(s: string)
    requires AllDigits(s)
    ensures Split(s) == (s, None)
  {
    if |s| > 0 {
      SplitDigits(s[1..]);
      assert s == [s[0]] + s[1..];
    }
  }

  lemma {:induction false} SplitDecimal(w: string, f: string)
    requires AllDigits(w)
    ensures Split(w + "." + f) == (w, Some(f))
  {
    var s := w + "." + f;
    if |w| == 0 {
      assert s[1..] == f;
    } else {
      SplitDecimal(w[1..], f);
      assert s[1..] == w[1..] + "." + f;
      assert w == [w[0]] + w[1..];
    }
  }

  predicate AllSpace(s: string) {
    forall i :: 0 <= i < |s| ==> IsSpace(s[i])
  }

  /** The text without the white space around it. */
  ghost predicate Trimmed(raw: string, t: string) {
    && (|t| > 0 ==> !IsSpace(t[0]) && !IsSpace(t[|t| - 1]))
    && exists a, b :: AllSpace(a) && AllSpace(b) && raw == a + t + b
  }

  lemma {:induction false} TrimStartIs(s: string) returns (a: string)
    ensures AllSpace(a) && s == a + TrimStart(s) && (|TrimStart(s)| > 0 ==> !IsSpace(TrimStart(s)[0]))
  {
    hide IsSpace;
    if |s| > 0 && IsSpace(s[0]) {
      a := TrimStartIs(s[1..]);
      a := [s[0]] + a;
      assert s == [s[0]] + s[1..];
    } else {
      a := "";
    }
  }

  lemma {:induction false} TrimEndIs(s: string) returns (b: string)
    ensures AllSpace(b) && s == TrimEnd(s) + b && TrimEnd(s) <= s
    ensures |TrimEnd(s)| > 0 ==> !IsSpace(TrimEnd(s)[|TrimEnd(s)| - 1])
  {
    hide IsSpace;
    if |s| > 0 && IsSpace(s[|s| - 1]) {
      b := TrimEndIs(s[..|s| - 1]);
      b := b + [s[|s| - 1]];
      assert s == s[..|s| - 1] + [s[|s| - 1]];
    } else {
      b := "";
    }
  }

  lemma TrimIs(raw: string)
    ensures Trimmed(raw, Trim(raw))
  {
    hide TrimStart, TrimEnd, IsSpace;
    var a := TrimStartIs(raw);
    var b := TrimEndIs(TrimStart(raw));
    assert raw == a + Trim(raw) + b;
  }

  /** A text gives no amount exactly when nothing was given or, without the white space around it, it
      is not digits with at most six more after a point. */
  lemma ParseFailsIff(raw: Option<string>)
    ensures ParseUsdToMicroUsd(raw) == None <==>
      raw == None || forall t :: Trimmed(raw.value, t) ==>
        !(|t| > 0 && AllDigits(t)) && !exists w, f :: Decimal(t, w, f) && |w| > 0 && 1 <= |f| <= 6
  {
    if raw.Some? {
      TrimIs(raw.value);
      AmountIff(Trim(raw.value));
      AmountIsText(raw.value);
      hide IsAmount, Trim, AllDigits, Trimmed;
      forall t | Trimmed(raw.value, t) ensures t == Trim(raw.value) {
        TrimmedIsUnique(raw.value, t, Trim(raw.value));
      }
    }
  }

  lemma TrimmedIsUnique(raw: string, t: string, u: string)
    requires Trimmed(raw, t) && Trimmed(raw, u)
    ensures t == u
  {
    var a, b :| AllSpace(a) && AllSpace(b) && raw == a + t + b;
    var c, d :| AllSpace(c) && AllSpace(d) && raw == c + u + d;
    hide IsSpace;
    TrimmedAt(raw, a, t, b);
    TrimmedAt(raw, c, u, d);
  }

  lemma TrimmedAt(raw: string, a: string, t: string, b: string)
    requires AllSpace(a) && AllSpace(b) && raw == a + t + b
    requires |t| > 0 ==> !IsSpace(t[0]) && !IsSpace(t[|t| - 1])
    ensures t == raw[|a|..|a| + |t|]
    ensures forall k :: 0 <= k < |a| || |a| + |t| <= k < |raw| ==> IsSpace(raw[k])
    ensures |t| > 0 ==> !IsSpace(raw[|a|]) && !IsSpace(raw[|a| + |t| - 1])
  {
    hide IsSpace;
  }

  /** The parse is exact: an amount whose digits spell n, k of them after the point, is n / 10^k
      dollars. */
  lemma ParseIsExact(raw: string)
    requires IsAmount(Trim(raw))
    ensures var (w, f) := Split(Trim(raw)); var k := |Coalesce(f, "")|;
      && AllDigits(w + Coalesce(f, "")) && ParseUsdToMicroUsd(Some(raw)).Some?
      && ParseUsdToMicroUsd(Some(raw)).value * Pow10(k) == Digits(w + Coalesce(f, "")) * MICRO_USD_PER_USD
  {
    hide Digits, Pow10, Pad, Trim, Split;
    var (w, o) := Split(Trim(raw));
    var f := Coalesce(o, "");
    AmountIsText(raw);
    DigitsJoin(w, f);
    DigitsOfPad(f);
    PowersMeet(|f|);
    ScaleFraction(Digits(w), Digits(f), Pow10(|f|), Pow10(6 - |f|));
  }

  lemma AmountIsText(raw: string)
    ensures IsAmount(Trim(raw)) ==> raw != ""
  {
  }

  lemma ScaleFraction(a: nat, b: nat, p: nat, q: nat)
    requires p * q == MICRO_USD_PER_USD
    ensures (a * MICRO_USD_PER_USD + b * q) * p == (a * p + b) * MICRO_USD_PER_USD
  {
  }

  lemma PowersMeet(k: nat)
    requires k <= 6
    ensures Pow10(k) * Pow10(6 - k) == MICRO_USD_PER_USD
  {
  }

  // ---------------------------------------------------------------- the budget

  datatype Config = Config(limitMicroUsd: nat, requestMicroUsd: nat, inputRate: nat, outputRate: nat)

  datatype Call = Call(inputBytes: int, maxOutputBytes: int)

  /** Byte counts that do not make roundUpRate throw. */
  predicate Countable(c: Call) {
    0 <= c.inputBytes <= MAX_SAFE_INTEGER && 0 <= c.maxOutputBytes <= MAX_SAFE_INTEGER
  }

  function RoundUpRate(bytes: nat, rate: nat): nat {
    if bytes == 0 || rate == 0 then 0 else (bytes * rate + PRICING_UNITS_PER_MILLION - 1) / PRICING_UNITS_PER_MILLION
  }

  function Estimate(config: Config, c: Call): nat
    requires Countable(c)
  {
    config.requestMicroUsd
    + RoundUpRate(c.inputBytes, config.inputRate)
    + RoundUpRate(c.maxOutputBytes, config.outputRate)
  }

  lemma EstimateIs(config: Config, c: Call)
    requires Countable(c)
    ensures Estimate(config, c) ==
      config.requestMicroUsd + RoundUpRate(c.inputBytes, config.inputRate)
      + RoundUpRate(c.maxOutputBytes, config.outputRate)
  {
  }

  predicate Granted(config: Config, reserved: nat, c: Call) {
    Countable(c) && Estimate(config, c) > 0 && reserved + Estimate(config, c) <= config.limitMicroUsd
  }

  function Reserve(config: Config, reserved: nat, c: Call): nat {
    if Granted(config, reserved, c) then reserved + Estimate(config, c) else reserved
  }

  /** The modelled price of a call in millionths of a micro-dollar, where it is exact. */
  function ExactCost(config: Config, c: Call): nat
    requires Countable(c)
  {
    PRICING_UNITS_PER_MILLION * config.requestMicroUsd
    + c.inputBytes * config.inputRate
    + c.maxOutputBytes * config.outputRate
  }

  /** The rounded rate is the least whole micro-dollar amount that covers the exact one. */
  lemma RoundUpIsLeast(bytes: nat, rate: nat, n: nat)
    ensures RoundUpRate(bytes, rate) <= n <==> bytes * rate <= n * PRICING_UNITS_PER_MILLION
  {
  }

  lemma EstimateBounds(config: Config, c: Call)
    requires Countable(c)
    ensures ExactCost(config, c) <= PRICING_UNITS_PER_MILLION * Estimate(config, c) <= ExactCost(config, c) + 1_999_998
  {
  }

  // ---------------------------------------------------------------- sequences of attempts

  function Reserved(config: Config, attempts: seq<Call>): nat {
    if |attempts| == 0 then 0
    else Reserve(config, Reserved(config, attempts[..|attempts| - 1]), attempts[|attempts| - 1])
  }

  /** The attempts that were granted. */
  function GrantedCalls(config: Config, attempts: seq<Call>): (r: seq<Call>)
    ensures forall c :: c in r ==> Countable(c)
  {
    if |attempts| == 0 then []
    else
      var before, c := attempts[..|attempts| - 1], attempts[|attempts| - 1];
      GrantedCalls(config, before) + if Granted(config, Reserved(config, before), c) then [c] else []
  }

  function TotalExactCost(config: Config, calls: seq<Call>): nat
    requires forall c :: c in calls ==> Countable(c)
  {
    if |calls| == 0 then 0
    else TotalExactCost(config, calls[..|calls| - 1]) + ExactCost(config, calls[|calls| - 1])
  }

  /** After any attempts the reservation is within the limit, covers the exact cost of all granted
      calls, and overstates it by less than two micro-dollars a call. */
  lemma {:induction false} ReservationCoversCost(config: Config, attempts: seq<Call>)
    ensures Reserved(config, attempts) <= config.limitMicroUsd
    ensures var granted := GrantedCalls(config, attempts);
      TotalExactCost(config, granted) <= PRICING_UNITS_PER_MILLION * Reserved(config, attempts)
        <= TotalExactCost(config, granted) + 1_999_998 * |granted|
  {
    if |attempts| > 0 {
      var before, c := attempts[..|attempts| - 1], attempts[|attempts| - 1];
      ReservationCoversCost(config, before);
      var g := GrantedCalls(config, before);
      if Granted(config, Reserved(config, before), c) {
        EstimateBounds(config, c);
        assert (g + [c])[..|g|] == g;
      } else {
        assert g + [] == g;
      }
    }
  }

  /** So no admitted work can cost more than the limit. */
  lemma GrantedWorkIsAffordable(config: Config, attempts: seq<Call>)
    ensures TotalExactCost(config, GrantedCalls(config, attempts)) <= PRICING_UNITS_PER_MILLION * config.limitMicroUsd
  {
    ReservationCoversCost(config, attempts);
  }

  /** The reservation never shrinks, and what is once refused for want of budget stays refused. */
  lemma {:induction false} ReservationGrows(config: Config, attempts: seq<Call>, n: nat, c: Call)
    requires n <= |attempts|
    ensures Reserved(config, attempts[..n]) <= Reserved(config, attempts)
    ensures Granted(config, Reserved(config, attempts), c) ==> Granted(config, Reserved(config, attempts[..n]), c)
  {
    if n < |attempts| {
      var before := attempts[..|attempts| - 1];
      ReservationGrows(config, before, n, c);
      assert before[..n] == attempts[..n];
    } else {
      assert attempts[..n] == attempts;
    }
  }

  class ConservativeRuntimeBudget {
    const config: Config
    var reservedMicroUsd: nat
    /** Every attempt that returned. */
    ghost var attempts: seq<Call>

    ghost predicate Valid()
      reads this
    {
      reservedMicroUsd == Reserved(config, attempts)
    }

    constructor (config: Config)
      ensures Valid() && this.config == config && attempts == []
    {
      this.config, reservedMicroUsd, attempts := config, 0, [];
    }

    /** A call of that price is granted exactly if it costs something and fits, and then reserved. */
    predicate Reserves(granted: bool, before: nat, after: nat, price: nat) {
      && (granted <==> price > 0 && before + price <= config.limitMicroUsd)
      && after == if granted then before + price else before
    }

    /** The least whole micro-dollars for so many bytes at a rate per million. */
    predicate Covers(n: nat, bytes: int, rate: nat) {
      n * 1_000_000 >= bytes * rate && (n > 0 ==> (n - 1) * 1_000_000 < bytes * rate)
    }

    lemma RoundUpCovers(bytes: nat, rate: nat)
      ensures Covers(RoundUpRate(bytes, rate), bytes, rate)
    {
      RoundUpIsLeast(bytes, rate, RoundUpRate(bytes, rate));
      if RoundUpRate(bytes, rate) > 0 { RoundUpIsLeast(bytes, rate, RoundUpRate(bytes, rate) - 1); }
    }

    /** None when a byte count is not a safe non-negative integer: roundUpRate throws. */
    method TryReserve(inputBytes: int, maxOutputBytes: int) returns (granted: Option<bool>)
      requires Valid()
      modifies this
      ensures Valid()
      ensures granted.None? <==> !Countable(Call(inputBytes, maxOutputBytes))
      ensures granted.None? <==>
        inputBytes < 0 || inputBytes > 9_007_199_254_740_991 ||
          maxOutputBytes < 0 || maxOutputBytes > 9_007_199_254_740_991
      ensures granted.None? ==> reservedMicroUsd == old(reservedMicroUsd)
      ensures granted.Some? ==> exists input: nat, output: nat ::
        && Covers(input, inputBytes, config.inputRate) && Covers(output, maxOutputBytes, config.outputRate)
        && Reserves(granted.value, old(reservedMicroUsd), reservedMicroUsd, config.requestMicroUsd + input + output)
      ensures attempts == old(attempts) + if granted.Some? then [Call(inputBytes, maxOutputBytes)] else []
      ensures granted.Some? ==>
        GrantedCalls(config, attempts) ==
        GrantedCalls(config, old(attempts)) + if granted.value then [Call(inputBytes, maxOutputBytes)] else []
    {
      hide Estimate;
      var c := Call(inputBytes, maxOutputBytes);
      if !Countable(c) { return None; }
      RoundUpCovers(inputBytes, config.inputRate);
      RoundUpCovers(maxOutputBytes, config.outputRate);
      EstimateIs(config, c);
      hide Covers, RoundUpRate;
      var estimate := Estimate(config, c);
      attempts := attempts + [c];
      assert attempts[..|attempts| - 1] == old(attempts);
      if estimate <= 0 || reservedMicroUsd + estimate > config.limitMicroUsd { return Some(false); }
      reservedMicroUsd := reservedMicroUsd + estimate;
      return Some(true);
    }
  }
}
