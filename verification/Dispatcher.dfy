/** The dispatcher: guards on the integration, then the call protocol of its CRM. */
module Dispatcher {
  import opened Basics
  import opened Records
  import opened Text
  import opened Crm

  predicate IsMockToken(value: string) {
    value != [] &&
    (var low := Lower(value);
     (|low| >= 11 && low[|low| - 11..] == "_mock_token") || low == "mock" ||
     low == "gohighlevel_mock_token" || low == "ghl_mock_token" ||
     low == "hubspot_mock_token" || low == "salesforce_mock_token")
  }

  /** A mock credential in any case: "mock", or anything that ends in "_mock_token". */
  ghost predicate MockForm(value: string) {
    Lower(value) == "mock" || exists p: string :: Lower(value) == p + "_mock_token"
  }

  lemma EndsWithExactly(s: string, suffix: string)
    ensures |s| >= |suffix| && s[|s| - |suffix|..] == suffix <==> exists p: string :: s == p + suffix
  {
    if |s| >= |suffix| && s[|s| - |suffix|..] == suffix {
      assert s == s[..|s| - |suffix|] + suffix;
    }
  }

  /** The tokens the source lists one by one end in "_mock_token", too. */
  lemma ListedMocks(low: string)
    requires low in {"gohighlevel_mock_token", "ghl_mock_token", "hubspot_mock_token", "salesforce_mock_token"}
    ensures exists p: string :: low == p + "_mock_token"
  {
    if low == "gohighlevel_mock_token" {
      assert low == "gohighlevel" + "_mock_token";
    } else if low == "ghl_mock_token" {
      assert low == "ghl" + "_mock_token";
    } else if low == "hubspot_mock_token" {
      assert low == "hubspot" + "_mock_token";
    } else {
      assert low == "salesforce" + "_mock_token";
    }
  }

  lemma MockTokenExactly(value: string)
    ensures IsMockToken(value) <==> MockForm(value)
  {
    var low := Lower(value);
    EndsWithExactly(low, "_mock_token");
    assert |"_mock_token"| == 11;
    if low in {"gohighlevel_mock_token", "ghl_mock_token", "hubspot_mock_token", "salesforce_mock_token"} {
      ListedMocks(low);
    }
    if value == "" {
      EmptyIsNoMock();
    }
  }

  lemma EmptyIsNoMock()
    ensures !MockForm("")
  {
    assert |Lower("")| == 0 && |"mock"| == 4;
    assert forall p: string :: |p + "_mock_token"| >= 11;
  }

  predicate Missing(value: Option<string>) {
    value == None || value == Some("")
  }

  /** Strict mode refuses a mock credential. */
  predicate Refused(settings: Settings, g: Integration) {
    settings.strict && !Missing(g.token) && IsMockToken(g.token.value)
  }

  /** What `dispatch` does before the first request: the first request, or an early result.
      A deleted integration is an attribute error on None. */
  function FirstCall(settings: Settings, target: Option<Integration>): Call {
    match target
    case None => Done(Failure("'NoneType' object has no attribute 'is_active'"))
    case Some(g) =>
      if !g.isActive then Done(Success)
      else if Refused(settings, g) then Done(Failure("Refusing to dispatch with mock credentials"))
      else
        match g.kind
        case HubSpot =>
          if !settings.strict && g.token == Some("hubspot_mock_token") then Done(Success) else HsSearch
        case GoHighLevel =>
          if !settings.strict && g.token in {Some("gohighlevel_mock_token"), Some("ghl_mock_token")} then Done(Success)
          else if Missing(g.token) then Done(Failure("GoHighLevel access token missing"))
          else Post
        case Salesforce =>
          if !settings.strict && g.token == Some("salesforce_mock_token") then Done(Success) else SfFindContact
        case GenericWebhook =>
          if Missing(g.url) then Done(Failure("Generic webhook URL missing")) else Post
        case Unsupported => Done(Failure("Unsupported integration type"))
  }

  /** The token is not a mock credential of the running mode: in strict mode not of the mock form at
      all, otherwise not the CRM's own mock token. A missing token is no mock. */
  ghost predicate RealToken(settings: Settings, token: Option<string>, ownMock: string) {
    if settings.strict then token.Some? ==> !MockForm(token.value) else token != Some(ownMock)
  }

  lemma RefusedExactly(settings: Settings, g: Integration)
    ensures Refused(settings, g) <==> settings.strict && g.token.Some? && MockForm(g.token.value)
  {
    if g.token.Some? {
      MockTokenExactly(g.token.value);
    }
  }

  /** Strict mode fails the attempt before any request, whatever the kind of the integration, exactly if
      its token has the mock form. */
  lemma StrictRefusesExactly(settings: Settings, g: Integration)
    requires settings.strict && g.isActive
    ensures g.token.Some? && MockForm(g.token.value) ==>
              FirstCall(settings, Some(g)).Done? && FirstCall(settings, Some(g)).reply.Failure?
    ensures !(g.token.Some? && MockForm(g.token.value)) ==>
              (g.kind == HubSpot ==> FirstCall(settings, Some(g)) == HsSearch) &&
              (g.kind == Salesforce ==> FirstCall(settings, Some(g)) == SfFindContact)
  {
    RefusedExactly(settings, g);
  }

  /** The single-request kinds: a GoHighLevel integration posts exactly with a token that is no mock
      credential of the mode, a webhook exactly with a URL. */
  lemma PostsExactly(settings: Settings, g: Integration)
    requires g.isActive
    ensures g.kind == GoHighLevel ==>
              (FirstCall(settings, Some(g)) == Post <==>
                 g.token.Some? && g.token.value != "" &&
                 RealToken(settings, g.token, "gohighlevel_mock_token") &&
                 RealToken(settings, g.token, "ghl_mock_token"))
    ensures g.kind == GenericWebhook ==>
              (FirstCall(settings, Some(g)) == Post <==>
                 g.url.Some? && g.url.value != "" &&
                 !(settings.strict && g.token.Some? && MockForm(g.token.value)))
    ensures g.kind == Unsupported ==>
              FirstCall(settings, Some(g)).Done? && FirstCall(settings, Some(g)).reply.Failure?
  {
    RefusedExactly(settings, g);
  }

  /** The mock tokens a lenient mode accepts without any request. */
  predicate DryRun(settings: Settings, g: Integration) {
    !settings.strict &&
    match g.kind
    case HubSpot => g.token == Some("hubspot_mock_token")
    case Salesforce => g.token == Some("salesforce_mock_token")
    case GoHighLevel => g.token == Some("gohighlevel_mock_token") || g.token == Some("ghl_mock_token")
    case _ => false
  }

  /** A result without any request is a success exactly for an inactive integration and for a dry run. */
  lemma EarlySuccessExactly(settings: Settings, target: Option<Integration>)
    ensures FirstCall(settings, target) == Done(Success) <==>
            target.Some? && (!target.value.isActive || DryRun(settings, target.value))
  {
  }

  /** An active Salesforce integration whose token is not a mock credential of the running mode. */
  ghost predicate RealSalesforce(settings: Settings, g: Integration) {
    g.isActive && g.kind == Salesforce && RealToken(settings, g.token, "salesforce_mock_token")
  }

  /** Exactly the real Salesforce integrations run the Salesforce protocol, whatever the mode. */
  lemma SalesforceProtocolExactly(settings: Settings, target: Option<Integration>)
    ensures FirstCall(settings, target) == SfFindContact <==>
            target.Some? && RealSalesforce(settings, target.value)
  {
    if target.Some? {
      RefusedExactly(settings, target.value);
    }
  }

  /** The same for HubSpot. */
  ghost predicate RealHubSpot(settings: Settings, g: Integration) {
    g.isActive && g.kind == HubSpot && RealToken(settings, g.token, "hubspot_mock_token")
  }

  lemma HubSpotProtocolExactly(settings: Settings, target: Option<Integration>)
    ensures FirstCall(settings, target) == HsSearch <==>
            target.Some? && RealHubSpot(settings, target.value)
  {
    if target.Some? {
      RefusedExactly(settings, target.value);
    }
  }

  datatype Table = HubSpotContacts | SalesforceContacts | SalesforceLeads

  function Rows(a: Account, table: Table): seq<Record> {
    match table
    case HubSpotContacts => a.hubspot
    case SalesforceContacts => a.contacts
    case SalesforceLeads => a.leads
  }

  predicate TakesEffect(o: Outcome) {
    o.Delivered? || o.tookEffect
  }

  function ReplyTo(o: Outcome): Reply {
    match o
    case Delivered => Success
    case Lost(_, error) => Failure(error)
  }

  /** The HTTP client connected to one account over a network with the given faults. */
  class Client {
    var account: Account
    var sent: nat
    const faults: nat -> Outcome

    constructor (account: Account, faults: nat -> Outcome)
      ensures this.account == account && this.faults == faults && sent == 0
    {
      this.account := account;
      this.faults := faults;
      sent := 0;
    }

    /** An equality search on the property of the identifier's kind. */
    method Search(table: Table, identifier: string) returns (response: Reply, found: Option<nat>)
      modifies this`sent
      ensures sent == old(sent) + 1
      ensures response == ReplyTo(faults(old(sent)))
      ensures found == if response.Success? then FirstMatch(Rows(account, table), identifier) else None
    {
      response := ReplyTo(faults(sent));
      sent := sent + 1;
      found := None;
      if response.Success? {
        found := FirstMatch(Rows(account, table), identifier);
      }
    }

    /** A request that writes: a patch, a create, or an opaque post. */
    method Write(call: Call, identifier: string) returns (response: Reply)
      modifies this
      ensures sent == old(sent) + 1
      ensures response == ReplyTo(faults(old(sent)))
      ensures account == if TakesEffect(faults(old(sent))) then Effect(old(account), call, identifier)
                         else old(account)
    {
      response := ReplyTo(faults(sent));
      if TakesEffect(faults(sent)) {
        account := Effect(account, call, identifier);
      }
      sent := sent + 1;
    }
  }

  /** Search, then patch the first hit or create a contact. */
  method DispatchToHubSpot(client: Client, identifier: string) returns (reply: Reply)
    modifies client
    ensures (client.account, reply) ==
            Finish(old(client.account), HsSearch, identifier, client.faults, old(client.sent))
    ensures client.account == old(client.account) || client.account == MarkedHubSpot(old(client.account), identifier)
    ensures reply.Success? ==> client.account == MarkedHubSpot(old(client.account), identifier)
  {
    AttemptAllOrNothing(client.account, HsSearch, identifier, client.faults, client.sent);
    var contact;
    reply, contact := client.Search(HubSpotContacts, identifier);
    if reply.Failure? {
      return;
    }
    if contact.Some? {
      reply := client.Write(HsPatch(contact.value), identifier);
    } else {
      reply := client.Write(HsCreate, identifier);
    }
  }

  /** Search contacts and patch; failing that search leads and patch; failing that create a lead. */
  method DispatchToSalesforce(client: Client, identifier: string) returns (reply: Reply)
    modifies client
    ensures (client.account, reply) ==
            Finish(old(client.account), SfFindContact, identifier, client.faults, old(client.sent))
    ensures client.account == old(client.account) || client.account == MarkedSalesforce(old(client.account), identifier)
    ensures reply.Success? ==> client.account == MarkedSalesforce(old(client.account), identifier)
  {
    AttemptAllOrNothing(client.account, SfFindContact, identifier, client.faults, client.sent);
    var contact, lead;
    reply, contact := client.Search(SalesforceContacts, identifier);
    if reply.Failure? {
      return;
    }
    if contact.Some? {
      reply := client.Write(SfPatchContact(contact.value), identifier);
      return;
    }
    reply, lead := client.Search(SalesforceLeads, identifier);
    if reply.Failure? {
      return;
    }
    if lead.Some? {
      reply := client.Write(SfPatchLead(lead.value), identifier);
    } else {
      reply := client.Write(SfCreateLead, identifier);
    }
  }

  /** The dispatch of one task row to its integration, if that still exists. */
  method Dispatch(settings: Settings, client: Client, target: Option<Integration>, identifier: string)
    returns (reply: Reply)
    modifies client
    ensures (client.account, reply) ==
            Finish(old(client.account), FirstCall(settings, target), identifier, client.faults, old(client.sent))
    ensures FirstCall(settings, target).Done? ==> client.sent == old(client.sent)
  {
    var first := FirstCall(settings, target);
    if first.Done? {
      reply := first.reply;
    } else if first == HsSearch {
      reply := DispatchToHubSpot(client, identifier);
    } else if first == SfFindContact {
      reply := DispatchToSalesforce(client, identifier);
    } else {
      reply := client.Write(Post, identifier);
    }
  }
}
