/** The Bitcoin payment handler (src/handlers/BtcHandler.js): the address
    check its constructor runs, and the BIP 21 `bitcoin:` payment URI it
    builds, with the amount written to 8 decimals and the optional label
    and message added through URLSearchParams. */
module Bitcoin {
  import opened Wrappers
  import Strings
  import Decimal
  import FormUrlEncoded

  /** The character class [a-zA-HJ-NP-Z0-9]: letters and digits except
      upper-case 'I' and 'O'. */
  predicate AddressChar(c: char) {
    'a' <= c <= 'z' || 'A' <= c <= 'H' || 'J' <= c <= 'N' || 'P' <= c <= 'Z' || '0' <= c <= '9'
  }

  /** `[a-zA-HJ-NP-Z0-9]{25,39}` matched by a whole string. */
  predicate AddressBody(s: string) {
    25 <= |s| <= 39 && forall k :: 0 <= k < |s| ==> AddressChar(s[k])
  }

  /** `/^(bc1|[13])[a-zA-HJ-NP-Z0-9]{25,39}$/.test(address)`. */
  predicate ValidAddress(address: string) {
    || (|address| >= 3 && address[..3] == "bc1" && AddressBody(address[3..]))
    || (|address| >= 1 && (address[0] == '1' || address[0] == '3') && AddressBody(address[1..]))
  }

  /** A handler holds the address it was built with. */
  datatype BtcHandler = BtcHandler(address: string)

  const InvalidAddress: string := "Invalid Bitcoin address format"

  /** `new BtcHandler(address)`: throws unless the address passes the check. */
  function NewBtcHandler(address: string): (r: Result<BtcHandler, string>)
    ensures r.Success? <==> ValidAddress(address)
    ensures r.Success? ==> r.value.address == address
    ensures r.Failure? ==> r.error == InvalidAddress
  {
    if ValidAddress(address) then Success(BtcHandler(address)) else Failure(InvalidAddress)
  }

  /** The optional text options; JavaScript adds one only when it is truthy,
      which for a string means non-empty. */
  predicate Truthy(option: Option<string>) {
    option.Some? && |option.value| > 0
  }

  /** The URLSearchParams the URI carries, in the order they are appended:
      the amount unless it is 0 (falsy), then the label, then the message.
      The amount is given in satoshis (10^-8 BTC), which `toFixed(8)`
      writes exactly. */
  function Params(satoshis: int, labelText: Option<string>, messageText: Option<string>): seq<(string, string)>
  {
    (if satoshis != 0 then [("amount", Decimal.Fixed(satoshis, 8))] else [])
    + (if Truthy(labelText) then [("label", labelText.value)] else [])
    + (if Truthy(messageText) then [("message", messageText.value)] else [])
  }

  /** The position of each parameter name in the order they are appended. */
  function Rank(name: string): nat {
    if name == "amount" then 0 else if name == "label" then 1 else 2
  }

  /** `generatePaymentUri(amount, options)`: "bitcoin:", the address, and
      '?' with the query only when there is one. */
  function PaymentUri(h: BtcHandler, satoshis: int, labelText: Option<string>, messageText: Option<string>): string {
    var query := FormUrlEncoded.Serialize(Params(satoshis, labelText, messageText));
    "bitcoin:" + h.address + (if |query| > 0 then "?" + query else "")
  }

  /** What `createPayment` resolves to; timestamps are `Date.now()`, given. */
  datatype Payment =
    | Created(paymentUri: string, qrCode: string, address: string, satoshis: int, timestamp: int)
    | Failed(error: string, timestamp: int)

  /** `createPayment(amount, options)`: the URI, then its QR code; a
      rejected QR code is caught and reported. QR generation needs a
      browser, so its outcome is given. */
  function CreatePayment(h: BtcHandler, satoshis: int, labelText: Option<string>, messageText: Option<string>,
                         qrCode: Result<string, string>, now: int): (p: Payment)
    ensures p.Created? <==> qrCode.Success?
    ensures p.Created? ==> p.paymentUri == PaymentUri(h, satoshis, labelText, messageText) && p.address == h.address
  {
    var uri := PaymentUri(h, satoshis, labelText, messageText);
    match qrCode
    case Success(image) => Created(uri, image, h.address, satoshis, now)
    case Failure(reason) => Failed(reason, now)
  }

  // ---------------------------------------------------------------------
  // Reading a payment URI back (BIP 21's `bitcoin:<address>[?<query>]`).

  /** The address and parameters of a `bitcoin:` URI. */
  function ParseUri(uri: string): Option<(string, seq<(string, string)>)> {
    if |uri| < 8 || uri[..8] != "bitcoin:" then None
    else
      var parts := Strings.Split(uri[8..], '?');
      if |parts| == 1 then Some((parts[0], []))
      else if |parts| == 2 && |parts[1]| > 0 then
        match FormUrlEncoded.Parse(parts[1])
        case None => None
        case Some(pairs) => Some((parts[0], pairs))
      else None
  }

  // ---------------------------------------------------------------------
  // What the handler guarantees.

  /** The regex in lengths: 26 to 40 characters after a '1' or '3', 28 to
      42 after "bc1". */
  lemma ValidAddressLength(address: string)
    requires ValidAddress(address)
    ensures address[0] == 'b' ==> 28 <= |address| <= 42
    ensures address[0] != 'b' ==> (address[0] == '1' || address[0] == '3') && 26 <= |address| <= 40
  {
  }

  /** After the prefix, upper-case 'I' and 'O' never appear, and nothing
      but letters and digits does. */
  lemma ValidAddressCharacters(address: string)
    requires ValidAddress(address)
    ensures var start := if address[0] == 'b' then 3 else 1;
            forall k :: start <= k < |address| ==> AddressChar(address[k]) && address[k] != 'I' && address[k] != 'O'
  {
    var start := if address[0] == 'b' then 3 else 1;
    forall k | start <= k < |address| ensures AddressChar(address[k]) {
      assert address[k] == address[start..][k - start];
    }
  }

  /** Neither '?' nor '&' can be part of a valid address. */
  lemma ValidAddressPlain(address: string)
    requires ValidAddress(address)
    ensures '?' !in address
  {
    var start := if address[0] == 'b' then 3 else 1;
    ValidAddressCharacters(address);
    forall k | 0 <= k < |address| ensures address[k] != '?' {
      if k < start { assert address[k] == address[..start][k]; }
    }
  }

  /** The genesis block's address passes the check. */
  lemma GenesisAddressAccepted()
    ensures ValidAddress("1A1zP1eP5QGefi2DMPTfTL5SLmv7DivfNa")
  {
    var address := "1A1zP1eP5QGefi2DMPTfTL5SLmv7DivfNa";
    var body := address[1..];
    assert |body| == 33;
    forall k | 0 <= k < |body| ensures AddressChar(body[k]) {
      assert body[k] == address[k + 1];
    }
  }

  /** A 62-character bech32 (P2WSH) address is longer than the check allows. */
  lemma LongBech32Refused()
    ensures !ValidAddress("bc1qrp33g0q5c5txsp9arysrx4k6zdkfs4nce4xj0gdcccefvpysxf3qccfmv3")
  {
    var address := "bc1qrp33g0q5c5txsp9arysrx4k6zdkfs4nce4xj0gdcccefvpysxf3qccfmv3";
    assert |address| == 62;
  }

  /** An Ethereum-style address is refused. */
  lemma EthereumAddressRefused()
    ensures !ValidAddress("0x2791Bca1f2de4661ED88A30C99A7a9449Aa84174")
  {
    var address := "0x2791Bca1f2de4661ED88A30C99A7a9449Aa84174";
    assert address == "0x" + address[2..];
    assert address[..3][0] != "bc1"[0];
  }

  /** The URI always starts with "bitcoin:" and the address. */
  lemma UriStartsWithAddress(h: BtcHandler, satoshis: int, labelText: Option<string>, messageText: Option<string>)
    ensures var uri := PaymentUri(h, satoshis, labelText, messageText);
            |uri| >= 8 + |h.address| && uri[..8 + |h.address|] == "bitcoin:" + h.address
  {
  }

  /** The query is empty exactly when no parameter was added. */
  lemma QueryEmptyIff(pairs: seq<(string, string)>)
    ensures |FormUrlEncoded.Serialize(pairs)| == 0 <==> |pairs| == 0
  {
    if |pairs| > 0 {
      FormUrlEncoded.PieceShape(pairs[0]);
      FormUrlEncoded.JoinNotEmpty(FormUrlEncoded.Pieces(pairs));
    }
  }

  /** For a handler that was built, the URI reads back as its address and
      exactly the parameters added, in order. */
  lemma UriRoundTrip(h: BtcHandler, satoshis: int, labelText: Option<string>, messageText: Option<string>)
    requires ValidAddress(h.address)
    ensures ParseUri(PaymentUri(h, satoshis, labelText, messageText)) == Some((h.address, Params(satoshis, labelText, messageText)))
  {
    var pairs := Params(satoshis, labelText, messageText);
    ValidAddressPlain(h.address);
    QueryEmptyIff(pairs);
    var query := FormUrlEncoded.Serialize(pairs);
    if |pairs| > 0 {
      assert PaymentUri(h, satoshis, labelText, messageText) == "bitcoin:" + h.address + ("?" + query);
      ParseWithQuery(h.address, pairs);
    } else {
      assert PaymentUri(h, satoshis, labelText, messageText) == "bitcoin:" + h.address + "";
      assert "bitcoin:" + h.address + "" == "bitcoin:" + h.address;
      ParseWithoutQuery(h.address);
    }
  }

  /** The URI of a built handler carries a '?' exactly when at least one
      parameter was added. */
  lemma UriQuestionMark(h: BtcHandler, satoshis: int, labelText: Option<string>, messageText: Option<string>)
    requires ValidAddress(h.address)
    ensures '?' in PaymentUri(h, satoshis, labelText, messageText) <==> |Params(satoshis, labelText, messageText)| > 0
  {
    var pairs := Params(satoshis, labelText, messageText);
    var query := FormUrlEncoded.Serialize(pairs);
    var uri := PaymentUri(h, satoshis, labelText, messageText);
    ValidAddressPlain(h.address);
    QueryEmptyIff(pairs);
    if |query| > 0 {
      assert uri[8 + |h.address|] == '?';
    } else {
      assert uri == "bitcoin:" + h.address;
      assert '?' !in uri by {
        forall k | 0 <= k < |uri| ensures uri[k] != '?' {
          if k >= 8 { assert uri[k] == h.address[k - 8]; }
        }
      }
    }
  }

  lemma ParseWithQuery(address: string, pairs: seq<(string, string)>)
    requires '?' !in address && |pairs| > 0
    ensures ParseUri("bitcoin:" + address + ("?" + FormUrlEncoded.Serialize(pairs))) == Some((address, pairs))
  {
    var query := FormUrlEncoded.Serialize(pairs);
    var uri := "bitcoin:" + address + ("?" + query);
    QueryEmptyIff(pairs);
    QueryPlain(pairs);
    assert uri[..8] == "bitcoin:";
    assert uri[8..] == address + ['?'] + query;
    Strings.SplitTwo(address, query, '?');
    FormUrlEncoded.SerializeRoundTrip(pairs);
  }

  lemma ParseWithoutQuery(address: string)
    requires '?' !in address
    ensures ParseUri("bitcoin:" + address) == Some((address, []))
  {
    var uri := "bitcoin:" + address;
    assert uri[..8] == "bitcoin:";
    assert uri[8..] == address;
  }

  /** A serialized query has no '?'. */
  lemma QueryPlain(pairs: seq<(string, string)>)
    ensures '?' !in FormUrlEncoded.Serialize(pairs)
  {
    if |pairs| > 0 {
      var pieces := FormUrlEncoded.Pieces(pairs);
      forall k | 0 <= k < |pieces| ensures '?' !in pieces[k] {
        PiecePlain(pairs[k]);
      }
      JoinPlain(pieces);
    }
  }

  lemma PiecePlain(pair: (string, string))
    ensures '?' !in FormUrlEncoded.Encode(pair.0) + "=" + FormUrlEncoded.Encode(pair.1)
  {
    FormUrlEncoded.EncodeAlphabet(pair.0);
    FormUrlEncoded.EncodeAlphabet(pair.1);
    FormUrlEncoded.NoSeparators(FormUrlEncoded.Encode(pair.0));
    FormUrlEncoded.NoSeparators(FormUrlEncoded.Encode(pair.1));
  }

  lemma {:induction false} JoinPlain(pieces: seq<string>)
    requires |pieces| >= 1 && forall k :: 0 <= k < |pieces| ==> '?' !in pieces[k]
    ensures '?' !in Strings.Join(pieces, '&')
    decreases |pieces|
  {
    if |pieces| > 1 {
      JoinPlain(pieces[1..]);
    }
  }

  /** The parameters come in the order amount, label, message, each at
      most once, and each is there exactly when its option is truthy
      (an amount of 0 is falsy). */
  lemma ParamsShape(satoshis: int, labelText: Option<string>, messageText: Option<string>)
    ensures var ps := Params(satoshis, labelText, messageText);
            && (forall a, b :: 0 <= a < b < |ps| ==> Rank(ps[a].0) < Rank(ps[b].0))
            && ((exists k :: 0 <= k < |ps| && ps[k].0 == "amount") <==> satoshis != 0)
            && ((exists k :: 0 <= k < |ps| && labelText.Some? && ps[k] == ("label", labelText.value)) <==> Truthy(labelText))
            && ((exists k :: 0 <= k < |ps| && messageText.Some? && ps[k] == ("message", messageText.value)) <==> Truthy(messageText))
  {
    var ps := Params(satoshis, labelText, messageText);
    var a: seq<(string, string)> := if satoshis != 0 then [("amount", Decimal.Fixed(satoshis, 8))] else [];
    var l: seq<(string, string)> := if Truthy(labelText) then [("label", labelText.value)] else [];
    var m: seq<(string, string)> := if Truthy(messageText) then [("message", messageText.value)] else [];
    assert ps == a + l + m;
    assert forall k :: 0 <= k < |a| ==> ps[k] == a[k] && Rank(ps[k].0) == 0;
    assert forall k :: |a| <= k < |a| + |l| ==> ps[k] == l[k - |a|] && Rank(ps[k].0) == 1;
    assert forall k :: |a| + |l| <= k < |ps| ==> ps[k] == m[k - |a| - |l|] && Rank(ps[k].0) == 2;
    if satoshis != 0 { assert ps[0].0 == "amount"; }
    if Truthy(labelText) { assert ps[|a|] == ("label", labelText.value); }
    if Truthy(messageText) { assert ps[|a| + |l|] == ("message", messageText.value); }
  }

  /** A zero amount is falsy and is left out; any other amount is the
      first parameter, written with exactly 8 decimals, and reads back as
      the amount. */
  lemma AmountParameter(satoshis: int, labelText: Option<string>, messageText: Option<string>)
    ensures var pairs := Params(satoshis, labelText, messageText);
            && (satoshis == 0 ==> forall k :: 0 <= k < |pairs| ==> pairs[k].0 != "amount")
            && (satoshis != 0 ==>
                  && pairs[0].0 == "amount"
                  && Decimal.ParseFixed(pairs[0].1, 8) == Some(satoshis)
                  && var v := pairs[0].1; |v| > 8 && v[|v| - 9] == '.' && Decimal.AllDigits(v[|v| - 8..]))
  {
    if satoshis != 0 {
      Decimal.FixedRoundTrip(satoshis, 8);
      Decimal.FixedFractionDigits(satoshis, 8);
    }
  }
}
