/** The Polygon payment handler (src/handlers/PolygonHandler.js): the
    construction checks, the amount check of `createPayment`, and the
    conversion of a dollar amount into the token's smallest unit, which
    `monitorAddress` repeats to recognise an incoming transfer. */
module Polygon {
  import opened Wrappers
  import Strings
  import Decimal

  /** TOKEN_CONTRACTS: the stablecoins accepted and their contracts. */
  const TokenContracts: map<string, string> :=
    map["USDC" := "0x2791Bca1f2de4661ED88A30C99A7a9449Aa84174",
        "USDT" := "0xc2132D05D31c914a87C6611C10748AEb04B58e8F"]

  /** A handler holds the receiving address, the currency and the address
      of that currency's token contract. */
  datatype PolygonHandler = PolygonHandler(address: string, currency: string, contract: string)

  /** `new PolygonHandler(address, currency)`. Whether Web3 is loaded and
      whether `web3.utils.isAddress` accepts the address are answers of
      the library, given here; the checks run in that order, then the
      currency is looked up. */
  function NewPolygonHandler(address: string, currency: string, web3Loaded: bool, addressAccepted: bool)
    : (r: Result<PolygonHandler, string>)
    ensures r.Success? <==> web3Loaded && addressAccepted && currency in TokenContracts
    ensures r.Success? ==> r.value == PolygonHandler(address, currency, TokenContracts[currency])
    ensures !web3Loaded ==> r == Failure("Web3 is required")
    ensures web3Loaded && !addressAccepted ==> r == Failure("Invalid Polygon address format")
    ensures web3Loaded && addressAccepted && currency !in TokenContracts ==> r == Failure("Unsupported currency: " + currency)
  {
    if !web3Loaded then Failure("Web3 is required")
    else if !addressAccepted then Failure("Invalid Polygon address format")
    else if currency !in TokenContracts then Failure("Unsupported currency: " + currency)
    else Success(PolygonHandler(address, currency, TokenContracts[currency]))
  }

  // ---------------------------------------------------------------------
  // The amount.

  /** What `createPayment` may be given as the amount: a finite number
      (its exact value), an infinity, NaN, or something that is not a
      number at all. */
  datatype JsAmount = Finite(value: real) | Infinite(positive: bool) | NaN | NotANumber

  /** `typeof amount !== 'number' || isNaN(amount) || amount <= 0 ||
      amount > 1000000` fails; this is its negation. */
  predicate ValidAmount(amount: JsAmount) {
    amount.Finite? && 0.0 < amount.value <= 1000000.0
  }

  /** The hundredths `toFixed(2)` writes for a nonnegative x: the integer n
      for which n / 100 is nearest to x, the larger one on a tie. */
  function Cents(x: real): (n: nat)
    requires x >= 0.0
    ensures (n as real) - 0.5 <= 100.0 * x < (n as real) + 0.5
  {
    (100.0 * x + 0.5).Floor
  }

  /** `x.toFixed(2)` for |x| < 10^21: a '-' for a negative x, then the
      rounded magnitude with exactly two decimals. */
  function ToFixed2(x: real): string {
    var magnitude := if x < 0.0 then -x else x;
    (if x < 0.0 then "-" else "") + Decimal.Fixed(Cents(magnitude), 2)
  }

  /** `const [whole, fraction = '00'] = amountStr.split('.')` followed by
      `whole + fraction.padEnd(6, '0')`. */
  function SmallestUnit(amountStr: string): string {
    var parts := Strings.Split(amountStr, '.');
    var fraction := if |parts| >= 2 then parts[1] else "00";
    parts[0] + Strings.PadEnd(fraction, 6, '0')
  }

  /** `amountInSmallestUnit`: the amount as `toFixed(2)` writes it, with
      the point removed and the fraction padded to six digits. */
  function AmountInSmallestUnit(amount: real): string {
    SmallestUnit(ToFixed2(amount))
  }

  // ---------------------------------------------------------------------
  // createPayment.

  /** Why `createPayment` reports failure. */
  datatype PaymentError =
    | DecimalsUnavailable    // "Failed to get token decimals"
    | InvalidAmount          // "Invalid amount: ... between 0 and 1,000,000 USD"
    | NotPositive            // "Amount must be positive"
    | QrFailed(cause: string) // "Failed to generate QR code: " + cause

  /** What `createPayment` resolves to; `Date.now()` is given. */
  datatype PaymentResult =
    | Created(address: string, amount: real, smallestUnit: string, currency: string,
              network: string, qrCode: string, timestamp: int)
    | Failed(error: PaymentError, timestamp: int)

  /** The text of the reported error. */
  function Message(e: PaymentError): (m: string)
    ensures |m| > 0
  {
    match e
    case DecimalsUnavailable => "Failed to get token decimals"
    case InvalidAmount => "Invalid amount. Amount must be between 0 and 1,000,000 USD"
    case NotPositive => "Amount must be positive"
    case QrFailed(cause) => "Failed to generate QR code: " + cause
  }

  /** `createPayment(amount)`. The token's decimals (fetched from the
      contract) and the QR code (rendered by a browser library) are given
      as outcomes: a failure carries the rejection's message, and a QR
      code that comes back empty is refused. Every failure is caught and
      reported, never thrown. */
  function CreatePayment(h: PolygonHandler, amount: JsAmount, decimals: Result<nat, string>,
                         qrCode: Result<string, string>, now: int): (p: PaymentResult)
    ensures p.timestamp == now
    ensures p.Created? <==> decimals.Success? && ValidAmount(amount) && qrCode.Success? && |qrCode.value| > 0
    ensures decimals.Failure? ==> p.error == DecimalsUnavailable
    ensures decimals.Success? && !ValidAmount(amount) ==> p.error == InvalidAmount
    ensures p.Created? ==>
              && p.address == h.address && p.currency == h.currency && p.network == "Polygon"
              && p.amount == amount.value && p.qrCode == qrCode.value
              && p.smallestUnit == AmountInSmallestUnit(amount.value)
  {
    if decimals.Failure? then Failed(DecimalsUnavailable, now)
    else if !ValidAmount(amount) then Failed(InvalidAmount, now)
    else
      var smallest := AmountInSmallestUnit(amount.value);
      if amount.value <= 0.0 then Failed(NotPositive, now)
      else match qrCode
        case Failure(reason) => Failed(QrFailed(reason), now)
        case Success(image) =>
          if |image| == 0 then Failed(QrFailed("QR code generation returned empty result"), now)
          else Created(h.address, amount.value, smallest, h.currency, "Polygon", image, now)
  }

  // ---------------------------------------------------------------------
  // monitorAddress.

  /** The check `receivedAmount === expectedAmountInSmallestUnit` as
      written: web3 decodes the transfer's uint256 as its decimal digits,
      which are compared as text with the converted amount. */
  predicate MonitorMatchesAsWritten(expectedAmount: real, received: nat) {
    Decimal.DigitsOf(received) == AmountInSmallestUnit(expectedAmount)
  }

  /** The comparison the conversion is meant for: the transferred number
      of smallest units against the number the converted text denotes. */
  predicate TransferMatches(expectedAmount: real, received: nat) {
    var expected := AmountInSmallestUnit(expectedAmount);
    Decimal.AllDigits(expected) && received == Decimal.ValueOf(expected)
  }

  // ---------------------------------------------------------------------
  // What the handler guarantees.

  /** Only USDC and USDT can be used. */
  lemma OnlyStablecoins(address: string, currency: string, web3Loaded: bool, addressAccepted: bool)
    ensures NewPolygonHandler(address, currency, web3Loaded, addressAccepted).Success? ==>
              currency == "USDC" || currency == "USDT"
  {
  }

  /** The second positivity check can never fire: the amount check before
      it already refused every amount that is not positive. */
  lemma NeverNotPositive(h: PolygonHandler, amount: JsAmount, decimals: Result<nat, string>,
                         qrCode: Result<string, string>, now: int)
    ensures CreatePayment(h, amount, decimals, qrCode, now) != Failed(NotPositive, now)
  {
  }

  /** The fetched decimals are never used: the conversion always pads to 6
      digits whatever the token reports. */
  lemma DecimalsIgnored(h: PolygonHandler, amount: JsAmount, d1: nat, d2: nat,
                        qrCode: Result<string, string>, now: int)
    ensures CreatePayment(h, amount, Success(d1), qrCode, now) == CreatePayment(h, amount, Success(d2), qrCode, now)
  {
  }

  /** A rejected QR code is reported with the rejection's message after
      the prefix; an empty one with a message of its own. */
  lemma QrFailureReported(h: PolygonHandler, amount: JsAmount, d: nat, qrCode: Result<string, string>, now: int)
    requires ValidAmount(amount)
    ensures qrCode.Failure? ==>
              Message(CreatePayment(h, amount, Success(d), qrCode, now).error) == "Failed to generate QR code: " + qrCode.error
    ensures qrCode == Success("") ==>
              Message(CreatePayment(h, amount, Success(d), qrCode, now).error)
                == "Failed to generate QR code: " + "QR code generation returned empty result"
  {
  }

  /** toFixed(2) of a nonnegative amount is its rounded cents written
      with two decimals, and reads back as those cents. */
  lemma ToFixed2Cents(x: real)
    requires x >= 0.0
    ensures ToFixed2(x) == Decimal.Fixed(Cents(x), 2)
    ensures Decimal.ParseFixed(ToFixed2(x), 2) == Some(Cents(x) as int)
  {
    var fixed := Decimal.Fixed(Cents(x), 2);
    assert "" + fixed == fixed;
    Decimal.FixedRoundTrip(Cents(x), 2);
  }

  /** The converted amount of c cents: the whole dollars' digits, the two
      cent digits and four zeros, which is worth c * 10^4 smallest units
      (10^-6 of a token). */
  lemma {:induction false} SmallestUnitOfCents(c: nat)
    ensures var s := SmallestUnit(Decimal.Fixed(c, 2));
            && Decimal.AllDigits(s)
            && Decimal.ValueOf(s) == c * 10000
            && |s| >= 7 && s[|s| - 4..] == "0000"
            && s == Decimal.DigitsOf(c / 100) + s[|s| - 6..|s| - 4] + "0000"
  {
    var whole, frac := CentsText(c);
    var s := SmallestUnit(Decimal.Fixed(c, 2));
    var tail := frac + "0000";
    FractionValue(frac);
    Decimal.ValueOfConcat(whole, tail);
    Decimal.ValueOfDigitsOf(c / 100);
    Decimal.Pow10Small();
    assert s[|s| - 6..|s| - 4] == frac;
    assert s[|s| - 4..] == "0000";
  }

  /** The converted text of c cents split into the whole dollars' digits,
      the two cent digits and the four '0' padding. */
  lemma CentsText(c: nat) returns (whole: string, frac: string)
    ensures whole == Decimal.DigitsOf(c / 100)
    ensures |frac| == 2 && Decimal.AllDigits(frac) && Decimal.ValueOf(frac) == c % 100
    ensures SmallestUnit(Decimal.Fixed(c, 2)) == whole + (frac + "0000")
  {
    var wf := Decimal.Shift(c, 2);
    Decimal.Pow10Small();
    assert wf.0 == c / 100 && wf.1 == c % 100;
    whole := Decimal.DigitsOf(wf.0);
    frac := Strings.PadStart(Decimal.DigitsOf(wf.1), 2, '0');
    Decimal.PaddedDigits(wf.1, 2);
    Decimal.NoSeparator(whole);
    Decimal.NoSeparator(frac);
    assert Decimal.Fixed(c, 2) == whole + ['.'] + frac;
    Strings.SplitTwo(whole, frac, '.');
    assert Strings.PadEnd(frac, 6, '0') == frac + "0000";
  }

  /** Two cent digits followed by four zeros are worth 10^4 times the
      cents. */
  lemma FractionValue(frac: string)
    requires |frac| == 2 && Decimal.AllDigits(frac)
    ensures Decimal.AllDigits(frac + "0000") && |frac + "0000"| == 6
    ensures Decimal.ValueOf(frac + "0000") == Decimal.ValueOf(frac) * 10000
  {
    Decimal.ValueOfConcat(frac, "0000");
    Decimal.ZerosWorthNothing(4);
    assert Strings.Repeat('0', 4) == "0000";
    Decimal.Pow10Small();
  }

  /** A sub-dollar amount keeps the whole part's "0" in front, so the
      converted text is exactly seven characters led by '0'; from one
      dollar up it is the plain decimal text of the number of smallest
      units. */
  lemma {:induction false} SmallestUnitLeadingZero(c: nat)
    ensures var s := SmallestUnit(Decimal.Fixed(c, 2));
            && (c < 100 ==> |s| == 7 && s[0] == '0')
            && (c >= 100 ==> s == Decimal.DigitsOf(c * 10000))
            && (Decimal.Canonical(s) <==> c >= 100)
  {
    var s := SmallestUnit(Decimal.Fixed(c, 2));
    SmallestUnitOfCents(c);
    var whole := Decimal.DigitsOf(c / 100);
    assert s[0] == whole[0];
    Decimal.LeadingZero(c / 100);
    if c >= 100 {
      Decimal.DigitsOfValueOf(s);
    } else {
      assert whole == "0";
    }
  }

  /** The converted text of a nonnegative amount with rounded cents c:
      digits worth c * 10^4 smallest units (10^-6 of a token), ending in
      four '0'; led by a '0' and seven characters long below one dollar,
      the plain decimal text of c * 10^4 from one dollar up. */
  lemma AmountInSmallestUnitOf(x: real)
    requires x >= 0.0
    ensures var s := AmountInSmallestUnit(x);
            var c := Cents(x);
            && Decimal.AllDigits(s)
            && Decimal.ValueOf(s) == c * 10000
            && |s| >= 7 && s[|s| - 4..] == "0000"
            && (c < 100 ==> |s| == 7 && s[0] == '0')
            && (c >= 100 ==> s == Decimal.DigitsOf(c * 10000))
  {
    ToFixed2Cents(x);
    SmallestUnitOfCents(Cents(x));
    SmallestUnitLeadingZero(Cents(x));
  }

  /** `createPayment` of an accepted amount with the rounded cents c asks
      for c * 10^4 smallest units, written with six fraction digits of
      which the last four are '0'. */
  lemma CreatedSmallestUnit(h: PolygonHandler, amount: JsAmount, d: nat, qrCode: Result<string, string>, now: int)
    requires CreatePayment(h, amount, Success(d), qrCode, now).Created?
    ensures var s := CreatePayment(h, amount, Success(d), qrCode, now).smallestUnit;
            && Decimal.AllDigits(s)
            && Decimal.ValueOf(s) == Cents(amount.value) * 10000
            && |s| >= 7 && s[|s| - 4..] == "0000"
  {
    AmountInSmallestUnitOf(amount.value);
  }

  /** A positive amount under half a cent passes the amount check and asks
      for nothing: "0.00" converts to "0000000". */
  lemma TinyAmountAsksForNothing(h: PolygonHandler, d: nat, image: string, now: int)
    requires |image| > 0
    ensures var p := CreatePayment(h, Finite(0.004), Success(d), Success(image), now);
            p.Created? && p.smallestUnit == "0000000"
  {
    assert Cents(0.004) == 0;
    ToFixed2Cents(0.004);
    ZeroCentsText();
  }

  /** "0.00" converts to "0000000". */
  lemma ZeroCentsText()
    ensures SmallestUnit(Decimal.Fixed(0, 2)) == "0000000"
  {
    assert Decimal.Shift(0, 2) == (0, 0);
    Decimal.LeadingZero(0);
    assert Strings.PadStart("0", 2, '0') == "00";
    assert Decimal.Fixed(0, 2) == "0" + ['.'] + "00";
    Strings.SplitTwo("0", "00", '.');
    assert Strings.PadEnd("00", 6, '0') == "000000";
  }

  /** As written, a transfer for a sub-dollar amount is never recognised:
      the decoded amount has no leading zero, the expected text has one. */
  lemma SubDollarNeverMatches(expectedAmount: real, received: nat)
    requires 0.0 <= expectedAmount && Cents(expectedAmount) < 100
    ensures !MonitorMatchesAsWritten(expectedAmount, received)
  {
    AmountInSmallestUnitOf(expectedAmount);
    Decimal.LeadingZero(received);
    if received == 0 {
      assert Decimal.DigitsOf(received) == "0";
    }
  }

  /** For example, half a dollar is 500000 smallest units, and a transfer
      of exactly that is not recognised. */
  lemma HalfDollarMissed()
    ensures !MonitorMatchesAsWritten(0.5, 500000)
    ensures TransferMatches(0.5, 500000)
  {
    assert Cents(0.5) == 50;
    SubDollarNeverMatches(0.5, 500000);
    TransferMatchesIff(0.5, 500000);
  }

  /** The intended check accepts exactly a transfer of the rounded cents
      times 10^4 smallest units. */
  lemma TransferMatchesIff(expectedAmount: real, received: nat)
    requires expectedAmount >= 0.0
    ensures TransferMatches(expectedAmount, received) <==> received == Cents(expectedAmount) * 10000
  {
    AmountInSmallestUnitOf(expectedAmount);
  }

  /** From one dollar up, the check as written and the intended one agree. */
  lemma AsWrittenAgreesFromOneDollar(expectedAmount: real, received: nat)
    requires expectedAmount >= 0.0 && Cents(expectedAmount) >= 100
    ensures MonitorMatchesAsWritten(expectedAmount, received) <==> TransferMatches(expectedAmount, received)
  {
    var n := Cents(expectedAmount) * 10000;
    AmountInSmallestUnitOf(expectedAmount);
    TransferMatchesIff(expectedAmount, received);
    if Decimal.DigitsOf(received) == Decimal.DigitsOf(n) {
      Decimal.ValueOfDigitsOf(received);
      Decimal.ValueOfDigitsOf(n);
    }
  }
}
