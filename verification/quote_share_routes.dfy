/**
 * The three share routes as functions from (registry, request) to (registry,
 * reply): send a quote by email, view a shared quote, and respond to it. The
 * random token bytes, the clock, the link origin and whether the mail server
 * accepted the message are parameters.
 */
module QuoteShareRoutes {
  import opened Wrappers
  import opened QuoteTypes
  import opened QuotePricing
  import opened ShareTokenStore

  // ---------------------------------------------------------------------------
  // Customer-safe projection
  // ---------------------------------------------------------------------------

  /** The projection of a quote sent to the customer: no status, dates, token or history. */
  datatype SafeQuote = SafeQuote(
    id: string,
    name: string,
    notes: string,
    customer: Customer,
    lineItems: seq<LineItem>)

  function SafeCustomer(c: Option<WireCustomer>): Customer {
    match c
    case None => EmptyCustomer
    case Some(w) => Customer(w.name.GetOr(""), w.company.GetOr(""), w.email.GetOr(""), w.phone.GetOr(""))
  }

  function SafeLineItem(li: WireLineItem): LineItem {
    LineItem(li.id, li.title, li.brand, li.styleNumber, li.color, li.image, li.sizeQty,
             li.costBySize.GetOr(map[]), li.markupType, li.markupPerItem, li.adjusters.GetOr([]))
  }

  /**
   * `makeCustomerSafeQuote`: id and name as they are, notes and customer
   * fields defaulted to "", and one projected line item per line item in the
   * same order. A projected line item keeps everything its price depends on,
   * the cost table included.
   */
  function MakeCustomerSafeQuote(q: WireQuote): (s: SafeQuote)
    ensures s.id == q.id && s.name == q.name
    ensures s.notes == (if q.notes.Some? then q.notes.value else "")
    ensures q.customer.None? ==> s.customer == EmptyCustomer
    ensures q.customer.Some? ==>
              && s.customer.name == (if q.customer.value.name.Some? then q.customer.value.name.value else "")
              && s.customer.company == (if q.customer.value.company.Some? then q.customer.value.company.value else "")
              && s.customer.email == (if q.customer.value.email.Some? then q.customer.value.email.value else "")
              && s.customer.phone == (if q.customer.value.phone.Some? then q.customer.value.phone.value else "")
    ensures |s.lineItems| == |q.lineItems.GetOr([])|
    ensures forall i :: 0 <= i < |s.lineItems| ==>
              var li := q.lineItems.value[i];
              && s.lineItems[i].id == li.id
              && s.lineItems[i].title == li.title && s.lineItems[i].brand == li.brand
              && s.lineItems[i].styleNumber == li.styleNumber && s.lineItems[i].color == li.color
              && s.lineItems[i].image == li.image
              && s.lineItems[i].Pricing() == li.Pricing()
  {
    var items := q.lineItems.GetOr([]);
    SafeQuote(q.id, q.name, q.notes.GetOr(""), SafeCustomer(q.customer),
              seq(|items|, i requires 0 <= i < |items| => SafeLineItem(items[i])))
  }

  /**
   * The customer sees the same prices the operator's quote gives: each
   * projected line item prices exactly like the line item it came from.
   */
  lemma SafeQuotePricing(q: WireQuote, i: nat)
    requires q.lineItems.Some? && i < |q.lineItems.value|
    ensures var s := MakeCustomerSafeQuote(q);
            && i < |s.lineItems|
            && LineItemCustomerPricing(s.lineItems[i].Pricing())
               == LineItemCustomerPricing(q.lineItems.value[i].Pricing())
  {
  }

  /**
   * The projection keeps each line item's cost table (the customer view
   * computes unit prices from it), so unit costs do reach the customer.
   */
  lemma SafeQuoteExposesCost(q: WireQuote, i: nat, size: string)
    requires q.lineItems.Some? && i < |q.lineItems.value|
    requires q.lineItems.value[i].costBySize.Some?
    requires size in q.lineItems.value[i].costBySize.value
    ensures var s := MakeCustomerSafeQuote(q);
            && i < |s.lineItems|
            && s.lineItems[i].costBySize[size] == q.lineItems.value[i].costBySize.value[size]
  {
  }

  /** A projected quote read back as a request body. */
  function SafeAsWire(s: SafeQuote): WireQuote {
    WireQuote(s.id, s.name, "", 0, 0, Some(s.notes),
              Some(WireCustomer(Some(s.customer.name), Some(s.customer.company),
                                Some(s.customer.email), Some(s.customer.phone))),
              Some(seq(|s.lineItems|, i requires 0 <= i < |s.lineItems| => WireItem(s.lineItems[i]))),
              None, [])
  }

  function WireItem(li: LineItem): WireLineItem {
    WireLineItem(li.id, li.title, li.brand, li.styleNumber, li.color, li.image, li.sizeQty,
                 Some(li.costBySize), li.markupType, li.markupPerItem, Some(li.adjusters))
  }

  /** Projecting an already projected quote changes nothing. */
  lemma SafeQuoteIdempotent(q: WireQuote)
    ensures MakeCustomerSafeQuote(SafeAsWire(MakeCustomerSafeQuote(q))) == MakeCustomerSafeQuote(q)
  {
    var s := MakeCustomerSafeQuote(q);
    var s2 := MakeCustomerSafeQuote(SafeAsWire(s));
    assert s2.lineItems == s.lineItems;
  }

  // ---------------------------------------------------------------------------
  // Replies
  // ---------------------------------------------------------------------------

  datatype ReplyBody =
    | ErrorBody(error: string)
    | SentBody(status: string, token: string)
    | ViewBody(quote: SafeQuote, response: Option<ShareResponse>)
    | RespondedBody(recorded: ShareResponse)

  datatype Reply = Reply(code: int, body: ReplyBody)

  /** The message handed to the mail transport: recipient, subject and share link. */
  datatype Email = Email(to: string, subject: string, link: string)

  datatype Outcome = Outcome(tokens: Tokens, reply: Reply, email: Option<Email>)

  // ---------------------------------------------------------------------------
  // POST /quote/:quoteId/send-email
  // ---------------------------------------------------------------------------

  datatype SendRequest = SendRequest(quoteId: string, quote: Option<WireQuote>, toEmail: string, message: string)

  const MissingQuote: string := "Missing quote in request body"
  const MissingEmail: string := "Missing toEmail"
  const QuoteIdMismatch: string := "quoteId mismatch"
  const EmailFailed: string := "Failed to send email"

  /** The customer's link: `<origin>/q/view/<token>`. */
  function ShareLink(origin: string, token: string): (link: string)
    ensures |link| >= |token| && link[|link| - |token|..] == token
  {
    origin + "/q/view/" + token
  }

  /** `Quote: <name>`, or the route's quote id when the quote has no name. */
  function EmailSubject(q: WireQuote, quoteId: string): string {
    "Quote: " + (if q.name != "" then q.name else quoteId)
  }

  /** A request that passes all three checks. */
  predicate IsValidSend(req: SendRequest) {
    req.quote.Some? && req.toEmail != "" && req.quote.value.id == req.quoteId
  }

  /**
   * The send handler. The three checks run in order and each rejects with 400
   * before anything is stored; a valid request stores the quote, marked
   * "pending", under a new token, then mails the link. A mail failure gives
   * 500 but the token it minted stays in the registry.
   */
  function Send(tokens: Tokens, req: SendRequest, randomBytes: seq<byte>, now: int, origin: string,
                delivered: bool): (o: Outcome)
    requires |randomBytes| == TokenBytes
    ensures req.quote.None? ==> o == Outcome(tokens, Reply(400, ErrorBody(MissingQuote)), None)
    ensures req.quote.Some? && req.toEmail == "" ==> o == Outcome(tokens, Reply(400, ErrorBody(MissingEmail)), None)
    ensures req.quote.Some? && req.toEmail != "" && req.quote.value.id != req.quoteId ==>
              o == Outcome(tokens, Reply(400, ErrorBody(QuoteIdMismatch)), None)
    ensures o.reply.code == 400 <==> !IsValidSend(req)
    ensures IsValidSend(req) ==>
              var token := HexEncode(randomBytes);
              && IsToken(token)
              && GetShareToken(o.tokens, token) == Some(ShareEntry(req.quote.value.(status := Pending), now, None))
              && (token !in tokens ==> o.tokens.Keys == tokens.Keys + {token})
              && (forall t :: t in tokens && t != token ==> t in o.tokens && o.tokens[t] == tokens[t])
              && o.email.Some? && o.email.value.to == req.toEmail
              && o.email.value.link == ShareLink(origin, token)
              && o.reply == (if delivered then Reply(200, SentBody(Pending, token)) else Reply(500, ErrorBody(EmailFailed)))
  {
    if req.quote.None? then Outcome(tokens, Reply(400, ErrorBody(MissingQuote)), None)
    else if req.toEmail == "" then Outcome(tokens, Reply(400, ErrorBody(MissingEmail)), None)
    else if req.quote.value.id != req.quoteId then Outcome(tokens, Reply(400, ErrorBody(QuoteIdMismatch)), None)
    else
      var quote := req.quote.value.(status := Pending);
      var m := CreateShareToken(tokens, quote, randomBytes, now);
      var email := Email(req.toEmail, EmailSubject(quote, req.quoteId), ShareLink(origin, m.token));
      var reply := if delivered then Reply(200, SentBody(Pending, m.token)) else Reply(500, ErrorBody(EmailFailed));
      Outcome(m.tokens, reply, Some(email))
  }

  // ---------------------------------------------------------------------------
  // GET /quote-share/:token
  // ---------------------------------------------------------------------------

  const InvalidLink: string := "Invalid link"
  const InvalidStatus: string := "Invalid status"

  /** The view handler: 404 for an unknown token, else the safe projection and the response. */
  function View(tokens: Tokens, token: string): (r: Reply)
    ensures token !in tokens <==> r == Reply(404, ErrorBody(InvalidLink))
    ensures token in tokens ==>
              r == Reply(200, ViewBody(MakeCustomerSafeQuote(tokens[token].quote), tokens[token].response))
  {
    match GetShareToken(tokens, token)
    case None => Reply(404, ErrorBody(InvalidLink))
    case Some(entry) => Reply(200, ViewBody(MakeCustomerSafeQuote(entry.quote), entry.response))
  }

  // ---------------------------------------------------------------------------
  // POST /quote-share/:token/respond
  // ---------------------------------------------------------------------------

  predicate IsDecision(status: string) {
    status == Approved || status == Rejected
  }

  /**
   * The respond handler. An unknown token is 404 whatever the status; a
   * status other than "approved"/"rejected" is 400; either way nothing is
   * stored. Otherwise the response is recorded (replacing any earlier one)
   * and returned.
   */
  function Respond(tokens: Tokens, token: string, status: string, notes: Option<string>, now: int): (o: Outcome)
    ensures o.email.None?
    ensures token !in tokens ==> o.tokens == tokens && o.reply == Reply(404, ErrorBody(InvalidLink))
    ensures token in tokens && !IsDecision(status) ==>
              o.tokens == tokens && o.reply == Reply(400, ErrorBody(InvalidStatus))
    ensures token in tokens && IsDecision(status) ==>
              && o.reply == Reply(200, RespondedBody(ShareResponse(status, notes.GetOr(""), now)))
              && o.tokens.Keys == tokens.Keys
              && o.tokens[token] == tokens[token].(response := Some(ShareResponse(status, notes.GetOr(""), now)))
              && (forall t :: t in tokens && t != token ==> o.tokens[t] == tokens[t])
  {
    if GetShareToken(tokens, token).None? then Outcome(tokens, Reply(404, ErrorBody(InvalidLink)), None)
    else if !IsDecision(status) then Outcome(tokens, Reply(400, ErrorBody(InvalidStatus)), None)
    else
      var r := SetResponse(tokens, token, status, notes, now);
      Outcome(r.tokens, Reply(200, RespondedBody(r.response.value)), None)
  }

  /** After a successful response the view shows it, next to the unchanged snapshot. */
  lemma ViewAfterRespond(tokens: Tokens, token: string, status: string, notes: Option<string>, now: int)
    requires token in tokens && IsDecision(status)
    ensures var o := Respond(tokens, token, status, notes, now);
            View(o.tokens, token)
              == Reply(200, ViewBody(MakeCustomerSafeQuote(tokens[token].quote),
                                     Some(ShareResponse(status, notes.GetOr(""), now))))
  {
  }

  /** A customer can change their mind: responding twice leaves the second decision. */
  lemma SecondResponseWins(tokens: Tokens, token: string, s1: string, n1: Option<string>, t1: int,
                           s2: string, n2: Option<string>, t2: int)
    requires token in tokens && IsDecision(s1) && IsDecision(s2)
    ensures var o1 := Respond(tokens, token, s1, n1, t1);
            var o2 := Respond(o1.tokens, token, s2, n2, t2);
            && o2.reply.code == 200
            && o2.tokens[token].response == Some(ShareResponse(s2, n2.GetOr(""), t2))
  {
  }

  /**
   * A sent quote can be viewed with its pending status stripped away and no
   * response yet, even when the email itself failed.
   */
  lemma SentQuoteIsViewable(tokens: Tokens, req: SendRequest, randomBytes: seq<byte>, now: int,
                            origin: string, delivered: bool)
    requires |randomBytes| == TokenBytes && IsValidSend(req)
    ensures var o := Send(tokens, req, randomBytes, now, origin, delivered);
            View(o.tokens, HexEncode(randomBytes))
              == Reply(200, ViewBody(MakeCustomerSafeQuote(req.quote.value), None))
  {
    var q := req.quote.value;
    var s1 := MakeCustomerSafeQuote(q.(status := Pending));
    var s2 := MakeCustomerSafeQuote(q);
    assert s1.lineItems == s2.lineItems;
  }
}
