/**
 * The share-token registry: a process-wide map from an unguessable token to
 * the quote it was minted for and the customer's latest response. Entries are
 * only ever added or updated, never removed.
 *
 * The quote is kept as the request body carried it (`WireQuote`): fields a
 * client may omit are `Option`s, so the defaults applied when it is projected
 * for the customer are visible. Randomness (`crypto.randomBytes`) and the
 * clock (`new Date()`) are parameters.
 */
module ShareTokenStore {
  import opened Wrappers
  import opened QuoteTypes

  // ---------------------------------------------------------------------------
  // The quote as it arrives in a request body
  // ---------------------------------------------------------------------------

  datatype WireCustomer = WireCustomer(
    name: Option<string>,
    company: Option<string>,
    email: Option<string>,
    phone: Option<string>)

  datatype WireLineItem = WireLineItem(
    id: string,
    title: string,
    brand: string,
    styleNumber: string,
    color: string,
    image: string,
    sizeQty: SizeQty,
    costBySize: Option<map<string, real>>,
    markupType: string,
    markupPerItem: real,
    adjusters: Option<seq<Adjuster>>)
  {
    /** What the pricing functions read, with their own `|| {}` / `|| []` defaults. */
    function Pricing(): PriceInputs {
      PriceInputs(sizeQty, costBySize.GetOr(map[]), markupType, markupPerItem, adjusters.GetOr([]))
    }
  }

  datatype WireQuote = WireQuote(
    id: string,
    name: string,
    status: string,
    createdAt: int,
    updatedAt: int,
    notes: Option<string>,
    customer: Option<WireCustomer>,
    lineItems: Option<seq<WireLineItem>>,
    shareToken: Option<string>,
    responses: seq<Response>)

  // ---------------------------------------------------------------------------
  // Tokens: 32 random bytes, hex encoded
  // ---------------------------------------------------------------------------

  newtype byte = x: int | 0 <= x < 256

  const TokenBytes: nat := 32

  /** The lower-case hex digits `0-9a-f`. */
  predicate IsHexChar(c: char) {
    '0' <= c <= '9' || 'a' <= c <= 'f'
  }

  /** The hex digit for a nibble. */
  function HexDigit(n: nat): (c: char)
    requires n < 16
    ensures IsHexChar(c)
  {
    if n < 10 then ('0' as int + n) as char else ('a' as int + n - 10) as char
  }

  /** `Buffer.toString("hex")`: two lower-case hex digits per byte, high nibble first. */
  function HexEncode(bytes: seq<byte>): (r: string)
    ensures |r| == 2 * |bytes|
    ensures forall i :: 0 <= i < |r| ==> IsHexChar(r[i])
  {
    seq(2 * |bytes|, i requires 0 <= i < 2 * |bytes| =>
      var b := bytes[i / 2] as int;
      if i % 2 == 0 then HexDigit(b / 16) else HexDigit(b % 16))
  }

  /** The nibble a hex digit stands for (0 for any other character); it inverts `HexDigit`. */
  function HexValue(c: char): (v: nat)
    ensures v < 16
  {
    if '0' <= c <= '9' then (c - '0') as nat
    else if 'a' <= c <= 'f' then (c - 'a') as nat + 10
    else 0
  }

  lemma HexValueOfDigit(n: nat)
    requires n < 16
    ensures HexValue(HexDigit(n)) == n
  {
  }

  /** Reads a hex string back into bytes, two digits per byte. */
  function HexDecode(s: string): seq<byte> {
    seq(|s| / 2, k requires 0 <= k < |s| / 2 => (HexValue(s[2 * k]) * 16 + HexValue(s[2 * k + 1])) as byte)
  }

  /** Hex encoding loses nothing: the token determines the random bytes. */
  lemma HexRoundTrip(bytes: seq<byte>)
    ensures HexDecode(HexEncode(bytes)) == bytes
  {
    var d := HexDecode(HexEncode(bytes));
    forall k | 0 <= k < |bytes|
      ensures d[k] == bytes[k]
    {
      HexRoundTripAt(bytes, k);
    }
  }

  /** The two digits of byte `k` decode back to it. */
  lemma HexRoundTripAt(bytes: seq<byte>, k: int)
    requires 0 <= k < |bytes|
    ensures |HexDecode(HexEncode(bytes))| == |bytes|
    ensures HexDecode(HexEncode(bytes))[k] == bytes[k]
  {
    var e := HexEncode(bytes);
    Halves(k);
    assert e[2 * k] == HexDigit(bytes[k] as int / 16);
    assert e[2 * k + 1] == HexDigit(bytes[k] as int % 16);
    ByteFromDigits(bytes[k]);
  }

  lemma Halves(k: nat)
    ensures (2 * k) / 2 == k && (2 * k) % 2 == 0
    ensures (2 * k + 1) / 2 == k && (2 * k + 1) % 2 == 1
  {
  }

  /** The two digits of a byte read back as that byte. */
  lemma ByteFromDigits(x: byte)
    ensures (HexValue(HexDigit(x as int / 16)) * 16 + HexValue(HexDigit(x as int % 16))) as byte == x
  {
    HexValueOfDigit(x as int / 16);
    HexValueOfDigit(x as int % 16);
  }

  /** Different random bytes never give the same token. */
  lemma HexEncodeInjective(a: seq<byte>, b: seq<byte>)
    requires HexEncode(a) == HexEncode(b)
    ensures a == b
  {
    HexRoundTrip(a);
    HexRoundTrip(b);
  }

  /** A well-formed token: 64 lower-case hex characters. */
  predicate IsToken(t: string) {
    |t| == 2 * TokenBytes && forall i :: 0 <= i < |t| ==> IsHexChar(t[i])
  }

  // ---------------------------------------------------------------------------
  // The registry
  // ---------------------------------------------------------------------------

  datatype ShareResponse = ShareResponse(status: string, notes: string, respondedAt: int)

  datatype ShareEntry = ShareEntry(quote: WireQuote, createdAt: int, response: Option<ShareResponse>)

  type Tokens = map<string, ShareEntry>

  datatype Minted = Minted(tokens: Tokens, token: string)

  /**
   * `createShareToken`: hex-encode 32 random bytes and store the quote under
   * that token with no response yet. A colliding token would overwrite the old
   * entry; with a fresh one the registry gains exactly that key.
   */
  function CreateShareToken(tokens: Tokens, quote: WireQuote, randomBytes: seq<byte>, now: int): (m: Minted)
    requires |randomBytes| == TokenBytes
    ensures IsToken(m.token)
    ensures m.token in m.tokens && m.tokens[m.token] == ShareEntry(quote, now, None)
    ensures forall t :: t in tokens && t != m.token ==> t in m.tokens && m.tokens[t] == tokens[t]
    ensures m.token !in tokens ==> m.tokens.Keys == tokens.Keys + {m.token}
  {
    var token := HexEncode(randomBytes);
    Minted(tokens[token := ShareEntry(quote, now, None)], token)
  }

  /** `getShareToken`: the entry, or nothing for a token that was never minted. */
  function GetShareToken(tokens: Tokens, token: string): (r: Option<ShareEntry>)
    ensures r.Some? <==> token in tokens
    ensures r.Some? ==> r.value == tokens[token]
  {
    if token in tokens then Some(tokens[token]) else None
  }

  datatype Recorded = Recorded(tokens: Tokens, response: Option<ShareResponse>)

  /**
   * `setResponse`: for a known token, replace the entry's response by
   * `{status, notes || ""}` and return it; for an unknown token return null and
   * change nothing.
   */
  function SetResponse(tokens: Tokens, token: string, status: string, notes: Option<string>, now: int): (r: Recorded)
    ensures token !in tokens <==> r.response.None?
    ensures token !in tokens ==> r.tokens == tokens
    ensures token in tokens ==>
              && r.response == Some(ShareResponse(status, notes.GetOr(""), now))
              && token in r.tokens
              && r.tokens[token] == tokens[token].(response := r.response)
    ensures r.tokens.Keys == tokens.Keys
    ensures forall t :: t in tokens && t != token ==> r.tokens[t] == tokens[t]
  {
    if token !in tokens then Recorded(tokens, None)
    else
      var response := ShareResponse(status, notes.GetOr(""), now);
      Recorded(tokens[token := tokens[token].(response := Some(response))], Some(response))
  }

  /** A second response overwrites the first: last write wins, with no conflict. */
  lemma LastResponseWins(tokens: Tokens, token: string, s1: string, n1: Option<string>, t1: int,
                         s2: string, n2: Option<string>, t2: int)
    requires token in tokens
    ensures var first := SetResponse(tokens, token, s1, n1, t1);
            var second := SetResponse(first.tokens, token, s2, n2, t2);
            && second.tokens == SetResponse(tokens, token, s2, n2, t2).tokens
            && GetShareToken(second.tokens, token).value.response == Some(ShareResponse(s2, n2.GetOr(""), t2))
  {
  }

  /** Recording a response never touches the quote the token was minted for. */
  lemma ResponseKeepsQuote(tokens: Tokens, token: string, status: string, notes: Option<string>, now: int)
    requires token in tokens
    ensures var r := SetResponse(tokens, token, status, notes, now);
            && GetShareToken(r.tokens, token).value.quote == tokens[token].quote
            && GetShareToken(r.tokens, token).value.createdAt == tokens[token].createdAt
  {
  }

  /** A freshly minted token is found, with its quote and no response. */
  lemma MintedTokenIsFound(tokens: Tokens, quote: WireQuote, randomBytes: seq<byte>, now: int)
    requires |randomBytes| == TokenBytes
    ensures var m := CreateShareToken(tokens, quote, randomBytes, now);
            GetShareToken(m.tokens, m.token) == Some(ShareEntry(quote, now, None))
  {
  }

  /** The store operations, as a log of calls. */
  datatype StoreOp =
    | Create(quote: WireQuote, randomBytes: seq<byte>, now: int)
    | Respond(token: string, status: string, notes: Option<string>, now: int)

  predicate WellFormedOp(op: StoreOp) {
    op.Create? ==> |op.randomBytes| == TokenBytes
  }

  function Apply(tokens: Tokens, op: StoreOp): Tokens
    requires WellFormedOp(op)
  {
    match op
    case Create(quote, randomBytes, now) => CreateShareToken(tokens, quote, randomBytes, now).tokens
    case Respond(token, status, notes, now) => SetResponse(tokens, token, status, notes, now).tokens
  }

  function ApplyAll(tokens: Tokens, ops: seq<StoreOp>): Tokens
    requires forall i :: 0 <= i < |ops| ==> WellFormedOp(ops[i])
  {
    if |ops| == 0 then tokens
    else Apply(ApplyAll(tokens, ops[..|ops| - 1]), ops[|ops| - 1])
  }

  /** No sequence of store operations ever forgets a token. */
  lemma {:induction false} TokensOnlyGrow(tokens: Tokens, ops: seq<StoreOp>)
    requires forall i :: 0 <= i < |ops| ==> WellFormedOp(ops[i])
    ensures tokens.Keys <= ApplyAll(tokens, ops).Keys
  {
    if |ops| > 0 {
      TokensOnlyGrow(tokens, ops[..|ops| - 1]);
      var before := ApplyAll(tokens, ops[..|ops| - 1]);
      ApplyKeepsTokens(before, ops[|ops| - 1]);
    }
  }

  lemma ApplyKeepsTokens(tokens: Tokens, op: StoreOp)
    requires WellFormedOp(op)
    ensures tokens.Keys <= Apply(tokens, op).Keys
  {
    match op {
      case Create(quote, randomBytes, now) =>
        var m := CreateShareToken(tokens, quote, randomBytes, now);
        assert forall t :: t in tokens ==> t in m.tokens;
      case Respond(token, status, notes, now) =>
    }
  }
}
