/** `parseXML` from the parsed document on: locating the report root,
    resolving the applicant's details, walking the accounts, filtering the
    enquiries and assembling the summary, with every failure turned into
    one error kind. Reading the file and parsing the markup are not part of
    this model: their outcome is the `Document` given as input. */
module Normalizer {
  import opened Wrappers
  import opened Tree
  import opened Strings
  import opened Numbers
  import opened Addresses
  import opened Accounts
  import opened Enquiries

  /** The outcome of reading and parsing the file. */
  datatype Document = Parsed(tree: Val) | Unreadable(reason: string) | Malformed(reason: string)

  /** The one error kind `parseXML` throws. */
  datatype ParseError = ParseError(message: string)

  const ErrorPrefix: string := "Failed to parse XML file: "

  /** The message `parseXML` throws: the prefix, then the cause's own message. */
  function Wrap(cause: string): (e: ParseError)
    ensures StartsWith(e.message, ErrorPrefix)
    ensures e.message[|ErrorPrefix|..] == cause
  {
    ParseError(ErrorPrefix + cause)
  }

  /** The cause a thrown message carries after the prefix, if it has the prefix. */
  function CauseOf(e: ParseError): Option<string> {
    if StartsWith(e.message, ErrorPrefix) then Some(e.message[|ErrorPrefix|..]) else None
  }

  /** Wrapping keeps the cause intact: it reads back from the message, so
      two different causes never give the same error. */
  lemma WrapKeepsCause(cause: string, other: string)
    ensures CauseOf(Wrap(cause)) == Some(cause)
    ensures Wrap(cause) == Wrap(other) ==> cause == other
  {
  }

  datatype BasicDetails = BasicDetails(name: Val, mobilePhone: Val, pan: Val, creditScore: Number)

  datatype ReportSummary = ReportSummary(
    totalAccounts: nat,
    activeAccounts: nat,
    closedAccounts: nat,
    currentBalanceAmount: Number,
    securedAccountsAmount: Number,
    unsecuredAccountsAmount: Number,
    last7DaysEnquiries: nat)

  /** The normalised record. */
  datatype CreditReport = CreditReport(
    basicDetails: BasicDetails,
    reportSummary: ReportSummary,
    creditAccounts: seq<AccountRecord>,
    addresses: seq<Val>)

  /** The report element: `CreditReport`, else `INProfileResponse`, else the whole tree. */
  function ReportRoot(tree: Val): (r: Val)
    ensures r == tree || (tree.Obj? && Truthy(r) && r in tree.fields.Values)
  {
    FirstOf([Resolve(tree, ["CreditReport"]), Resolve(tree, ["INProfileResponse"])], tree)
  }

  /** The root falls back in order: a truthy `CreditReport`, else a truthy
      `INProfileResponse`, else the whole tree. */
  lemma ReportRootFallback(tree: Val)
    ensures Present(Resolve(tree, ["CreditReport"])) ==> ReportRoot(tree) == Resolve(tree, ["CreditReport"]).value
    ensures !Present(Resolve(tree, ["CreditReport"])) && Present(Resolve(tree, ["INProfileResponse"])) ==>
              ReportRoot(tree) == Resolve(tree, ["INProfileResponse"]).value
    ensures !Present(Resolve(tree, ["CreditReport"])) && !Present(Resolve(tree, ["INProfileResponse"])) ==>
              ReportRoot(tree) == tree
  {
    var cands := [Resolve(tree, ["CreditReport"]), Resolve(tree, ["INProfileResponse"])];
    if Present(cands[0]) {
      FirstOfPrefersEarlier(cands, tree, 0);
    } else if Present(cands[1]) {
      FirstOfPrefersEarlier(cands, tree, 1);
    }
  }

  /** `parseInt` of the resolved score; a non-text value converts to NaN. */
  function Score(x: Val): Number {
    match x
    case Text(s) => ParseInt(s)
    case _ => NaN
  }

  /** The applicant's details. The three text fields never come out empty;
      the score is `parseInt` of the first truthy score text, and NaN or a
      whole number. */
  function DetailsOf(report: Val): (d: BasicDetails)
    ensures Truthy(d.name) && Truthy(d.mobilePhone) && Truthy(d.pan)
    ensures d.name == (if FirstText(report, NamePaths).Some? then FirstText(report, NamePaths).value else Text("N/A"))
    ensures d.mobilePhone == (if FirstText(report, PhonePaths).Some? then FirstText(report, PhonePaths).value else Text("N/A"))
    ensures d.pan == (if FirstText(report, PanPaths).Some? then FirstText(report, PanPaths).value else Text("N/A"))
    ensures FirstText(report, ScorePaths).Some? && FirstText(report, ScorePaths).value.Text? ==>
      d.creditScore == ParseInt(FirstText(report, ScorePaths).value.s)
    ensures d.creditScore.Num? ==> d.creditScore.value.Floor as real == d.creditScore.value
  {
    var name := TextOr(report, NamePaths, Text("N/A"));
    var phone := TextOr(report, PhonePaths, Text("N/A"));
    var pan := TextOr(report, PanPaths, Text("N/A"));
    var score := TextOr(report, ScorePaths, Text("0"));
    BasicDetails(name, phone, pan, Score(score))
  }

  const NamePaths: seq<seq<string>> :=
    [["Applicant", "0", "Name", "0"], ["Header", "0", "Applicant", "0", "Name", "0"], ["Name", "0"]]
  const PhonePaths: seq<seq<string>> :=
    [["Applicant", "0", "Telephone", "0", "Number", "0"], ["Telephone", "0"], ["Mobile", "0"]]
  const PanPaths: seq<seq<string>> :=
    [["Applicant", "0", "Identifier", "0", "PAN", "0"], ["PAN", "0"]]
  const ScorePaths: seq<seq<string>> :=
    [["Score", "0", "Value", "0"], ["CreditScore", "0"]]

  /** `report.<section>?.[0]?.<item> || report.<item> || []`: the list of
      `item` elements a report holds, inside its first `section` element or
      directly. */
  function ListOf(report: Val, section: string, item: string): (r: Val)
    ensures Truthy(r)
    ensures Present(Resolve(report, [section, "0", item])) ==> r == Resolve(report, [section, "0", item]).value
    ensures !Present(Resolve(report, [section, "0", item])) && Present(Resolve(report, [item])) ==> r == Resolve(report, [item]).value
    ensures !Present(Resolve(report, [section, "0", item])) && !Present(Resolve(report, [item])) ==> r == Arr([])
  {
    var cands := [Resolve(report, [section, "0", item]), Resolve(report, [item])];
    assert !Present(cands[0]) && Present(cands[1]) ==> FirstOf(cands, Arr([])) == cands[1].value by {
      if !Present(cands[0]) && Present(cands[1]) {
        FirstOfPrefersEarlier(cands, Arr([]), 1);
      }
    }
    FirstOf(cands, Arr([]))
  }

  /** The report's accounts. */
  function AccountsOf(report: Val): Val {
    ListOf(report, "Accounts", "Account")
  }

  /** The report's enquiries. */
  function EnquiriesOf(report: Val): Val {
    ListOf(report, "Enquiries", "Enquiry")
  }

  /** What the `try` block throws for a parsed tree, if anything: calling
      `forEach` or `filter` on a non-array, or an account that throws. */
  predicate Throws(tree: Val) {
    var report := ReportRoot(tree);
    var accounts := AccountsOf(report);
    || !accounts.Arr?
    || (exists i :: 0 <= i < |accounts.elems| && ReadAccount(accounts.elems[i]).Failure?)
    || !EnquiriesOf(report).Arr?
  }

  /** The summary invariants of a normalised record: one record per
      account, the status counters bounded by it, and the two balance
      buckets adding up to the total. */
  predicate SummaryHolds(r: CreditReport) {
    var s := r.reportSummary;
    && s.totalAccounts == |r.creditAccounts|
    && s.activeAccounts + s.closedAccounts <= s.totalAccounts
    && Plus(s.securedAccountsAmount, s.unsecuredAccountsAmount) == s.currentBalanceAmount
  }

  /** The record built from the walked accounts and the enquiry list. */
  function Assemble(report: Val, accs: seq<Val>, t: Tally, enqs: seq<Val>, now: int, parseDate: DateParser): (r: CreditReport)
    requires |t.records| == |accs| && Consistent(t)
    ensures SummaryHolds(r)
  {
    var summary := ReportSummary(
      |accs|, t.active, t.closed, t.balance, t.secured, t.unsecured,
      |RecentEnquiries(enqs, now, parseDate)|);
    CreditReport(DetailsOf(report), summary, t.records, t.addresses)
  }

  /** The `try` block on a parsed tree: the record, or the message of what it throws. */
  function Process(tree: Val, now: int, parseDate: DateParser): (r: Result<CreditReport, string>)
    ensures r.Failure? <==> Throws(tree)
    ensures r.Success? ==> SummaryHolds(r.value)
  {
    var report := ReportRoot(tree);
    var accounts := AccountsOf(report);
    if !accounts.Arr? then Failure(NotAFunction("accounts.forEach"))
    else match Walk(Start, accounts.elems, ReadAccount)
      case Failure(cause) => Failure(cause)
      case Success(t) =>
        var enquiries := EnquiriesOf(report);
        if !enquiries.Arr? then Failure(NotAFunction("enquiries.filter"))
        else Success(Assemble(report, accounts.elems, t, enquiries.elems, now, parseDate))
  }

  /** `parseXML` after the file has been read and parsed: every failure,
      of reading, of parsing or inside the `try` block, comes back as the
      one error kind with the fixed prefix, and no record comes with it. */
  function Normalize(doc: Document, now: int, parseDate: DateParser): (r: Result<CreditReport, ParseError>)
    ensures r.Failure? ==> StartsWith(r.error.message, ErrorPrefix)
    ensures r.Failure? <==> !doc.Parsed? || Throws(doc.tree)
    ensures !doc.Parsed? ==> r == Failure(Wrap(doc.reason))
    ensures r.Success? ==> SummaryHolds(r.value)
  {
    match doc
    case Unreadable(reason) => Failure(Wrap(reason))
    case Malformed(reason) => Failure(Wrap(reason))
    case Parsed(tree) =>
      match Process(tree, now, parseDate)
      case Failure(cause) => Failure(Wrap(cause))
      case Success(report) => Success(report)
  }

  /** The record `r` built from `report` holds exactly the reference
      quantities of the report's accounts: one record per account in
      document order, the balance and bucket sums, the status counts, the
      deduplicated addresses, the number of recent enquiries and the
      resolved details. */
  ghost predicate AgreesWithReference(report: Val, r: CreditReport, now: int, parseDate: DateParser) {
    && AccountsOf(report).Arr? && EnquiriesOf(report).Arr?
    && Entries(AccountsOf(report).elems, ReadAccount).Success?
    && var accs := AccountsOf(report).elems;
    var es := Entries(accs, ReadAccount).value;
    var s := r.reportSummary;
    && r.creditAccounts == Records(es)
    && |r.creditAccounts| == |accs|
    && (forall i :: 0 <= i < |accs| ==> ReadAccount(accs[i]) == Success(es[i]) && r.creditAccounts[i] == es[i].record)
    && s.currentBalanceAmount == BalanceSum(Records(es))
    && s.securedAccountsAmount == BucketSum(es, true)
    && s.unsecuredAccountsAmount == BucketSum(es, false)
    && s.activeAccounts == CountStatus(es, Active)
    && s.closedAccounts == CountStatus(es, Closed)
    && r.addresses == KeepFirst(AddressesOf(es))
    && NoDuplicateText(r.addresses)
    && (forall x :: x in r.addresses <==> x in AddressesOf(es))
    && s.last7DaysEnquiries == |RecentEnquiries(EnquiriesOf(report).elems, now, parseDate)|
    && r.basicDetails == DetailsOf(report)
  }

  /** A successful result agrees with the reference quantities of the report's accounts. */
  lemma NormalizeMatchesReference(doc: Document, now: int, parseDate: DateParser)
    ensures Normalize(doc, now, parseDate).Success? ==>
      doc.Parsed? && AgreesWithReference(ReportRoot(doc.tree), Normalize(doc, now, parseDate).value, now, parseDate)
  {
    if Normalize(doc, now, parseDate).Success? {
      var report := ReportRoot(doc.tree);
      var accs := AccountsOf(report).elems;
      var t := Walk(Start, accs, ReadAccount).value;
      var r := Assemble(report, accs, t, EnquiriesOf(report).elems, now, parseDate);
      assert Normalize(doc, now, parseDate) == Success(r);
      WalkFromStart(accs, ReadAccount);
    }
  }

  /** A report with no account section yields no accounts, no addresses
      and every account counter and amount at zero. It fails only when its
      enquiry section is not a list, and otherwise counts its recent
      enquiries as usual. */
  lemma MissingAccountsGiveZeros(tree: Val, now: int, parseDate: DateParser)
    requires
      var report := ReportRoot(tree);
      !Present(Resolve(report, ["Accounts", "0", "Account"])) && !Present(Resolve(report, ["Account"]))
    ensures Normalize(Parsed(tree), now, parseDate).Success? <==> EnquiriesOf(ReportRoot(tree)).Arr?
    ensures EnquiriesOf(ReportRoot(tree)).Arr? ==>
      var report := ReportRoot(tree);
      Normalize(Parsed(tree), now, parseDate)
        == Success(CreditReport(DetailsOf(report),
                                ReportSummary(0, 0, 0, Zero, Zero, Zero, |RecentEnquiries(EnquiriesOf(report).elems, now, parseDate)|),
                                [], []))
  {
    var report := ReportRoot(tree);
    assert AccountsOf(report) == Arr([]);
    assert Walk(Start, [], ReadAccount) == Success(Start);
  }

  /** A report in which no candidate path of a detail leads to a truthy
      value gets "N/A" for that detail. */
  lemma MissingDetailsDefault(report: Val)
    ensures (forall i :: 0 <= i < |NamePaths| ==> !Present(GetText(report, NamePaths[i]))) ==> DetailsOf(report).name == Text("N/A")
    ensures (forall i :: 0 <= i < |PhonePaths| ==> !Present(GetText(report, PhonePaths[i]))) ==> DetailsOf(report).mobilePhone == Text("N/A")
    ensures (forall i :: 0 <= i < |PanPaths| ==> !Present(GetText(report, PanPaths[i]))) ==> DetailsOf(report).pan == Text("N/A")
  {
    TextOrDefault(report, NamePaths, Text("N/A"));
    TextOrDefault(report, PhonePaths, Text("N/A"));
    TextOrDefault(report, PanPaths, Text("N/A"));
  }

  /** With no score element the score is `parseInt("0")`, that is 0. */
  lemma MissingScoreIsZero(report: Val)
    requires forall i :: 0 <= i < |ScorePaths| ==> !Present(GetText(report, ScorePaths[i]))
    ensures DetailsOf(report).creditScore == Zero
  {
    TextOrDefault(report, ScorePaths, Text("0"));
    ParseIntNumeral(0, []);
    assert Decimal(0) + [] == "0";
  }

  /** A score written as a numeral reads back as that number. */
  lemma ScoreNumeral(report: Val, n: nat)
    requires FirstText(report, ScorePaths) == Some(Text(Decimal(n)))
    ensures DetailsOf(report).creditScore == Num(n as real)
  {
    ParseIntNumeral(n, []);
    assert Decimal(n) + [] == Decimal(n);
  }

  /** The tree an empty `<CreditReport></CreditReport>` parses to. */
  const EmptyReport: Val := Obj(map["CreditReport" := Text("")])

  /** The empty root element is falsy, so the whole tree is the report, and
      none of the detail paths leads anywhere in it. */
  lemma EmptyReportDetails()
    ensures ReportRoot(EmptyReport) == EmptyReport
    ensures DetailsOf(EmptyReport) == BasicDetails(Text("N/A"), Text("N/A"), Text("N/A"), Zero)
  {
    assert ReportRoot(EmptyReport) == EmptyReport by {
      assert Resolve(EmptyReport, ["CreditReport"]) == None;
      assert Resolve(EmptyReport, ["INProfileResponse"]) == None;
      ReportRootFallback(EmptyReport);
    }
    assert DetailsOf(EmptyReport) == BasicDetails(Text("N/A"), Text("N/A"), Text("N/A"), Zero) by {
      EmptyReportHasNoDetails();
      assert Score(Text("0")) == Zero by {
        ParseIntNumeral(0, []);
        assert Decimal(0) + [] == "0";
      }
    }
  }

  /** The empty report has none of the applicant's details. */
  lemma EmptyReportHasNoDetails()
    ensures FirstText(EmptyReport, NamePaths) == None
    ensures FirstText(EmptyReport, PhonePaths) == None
    ensures FirstText(EmptyReport, PanPaths) == None
    ensures FirstText(EmptyReport, ScorePaths) == None
  {
    MissingFirstKeys(EmptyReport, NamePaths);
    MissingFirstKeys(EmptyReport, PhonePaths);
    MissingFirstKeys(EmptyReport, PanPaths);
    MissingFirstKeys(EmptyReport, ScorePaths);
  }

  /** An empty `<CreditReport></CreditReport>` yields a record in which
      every field takes its default. */
  lemma EmptyReportDefaults(now: int, parseDate: DateParser)
    ensures Normalize(Parsed(EmptyReport), now, parseDate)
         == Success(CreditReport(
              BasicDetails(Text("N/A"), Text("N/A"), Text("N/A"), Zero),
              ReportSummary(0, 0, 0, Zero, Zero, Zero, 0), [], []))
  {
    EmptyReportDetails();
    EmptyReportHasNoSections();
    MissingAccountsGiveZeros(EmptyReport, now, parseDate);
    assert EnquiriesOf(EmptyReport) == Arr([]);
    assert RecentEnquiries([], now, parseDate) == [];
  }

  /** Neither account nor enquiry section can be found in the empty report. */
  lemma EmptyReportHasNoSections()
    ensures Resolve(EmptyReport, ["Accounts", "0", "Account"]) == None
    ensures Resolve(EmptyReport, ["Account"]) == None
    ensures Resolve(EmptyReport, ["Enquiries", "0", "Enquiry"]) == None
    ensures Resolve(EmptyReport, ["Enquiry"]) == None
  {
  }

  /** The tree of a report whose applicant element holds only an `<n>`
      element, with no score and an empty account section. */
  function NoScoreReport(name: string): Val {
    Obj(map["CreditReport" := Obj(map[
      "Applicant" := Arr([Obj(map["n" := Arr([Text(name)])])]),
      "Accounts" := Arr([Text("")])])])
  }

  /** Without a score the score is 0, the phone number is truthy whether
      found or not, and an empty account section yields no accounts. */
  lemma NoScoreNoAccounts(name: string, now: int, parseDate: DateParser)
    ensures Normalize(Parsed(NoScoreReport(name)), now, parseDate).Success?
    ensures
      var r := Normalize(Parsed(NoScoreReport(name)), now, parseDate).value;
      && r.basicDetails.creditScore == Zero
      && Truthy(r.basicDetails.mobilePhone)
      && r.creditAccounts == [] && r.reportSummary.totalAccounts == 0
  {
    var tree := NoScoreReport(name);
    NoScoreReportShape(name);
    var report := ReportRoot(tree);
    MissingAccountsGiveZeros(tree, now, parseDate);
    assert EnquiriesOf(report) == Arr([]);
    assert DetailsOf(report).creditScore == Zero by {
      MissingFirstKeys(report, ScorePaths);
      ParseIntNumeral(0, []);
      assert Decimal(0) + [] == "0";
    }
  }

  /** Where the no-score report leads: its root is the `CreditReport`
      element, whose account section is empty and which has no enquiry
      section and no score. */
  lemma NoScoreReportShape(name: string)
    ensures ReportRoot(NoScoreReport(name)) == NoScoreReport(name).fields["CreditReport"]
    ensures
      var report := ReportRoot(NoScoreReport(name));
      && Resolve(report, ["Accounts", "0", "Account"]) == None && Resolve(report, ["Account"]) == None
      && Resolve(report, ["Enquiries", "0", "Enquiry"]) == None && Resolve(report, ["Enquiry"]) == None
      && forall i :: 0 <= i < |ScorePaths| ==> ScorePaths[i] != [] && Lookup(report, ScorePaths[i][0]).None?
  {
    var tree := NoScoreReport(name);
    var report := tree.fields["CreditReport"];
    assert ReportRoot(tree) == report by {
      assert Resolve(tree, ["CreditReport"]) == Some(report);
      ReportRootFallback(tree);
    }
    assert Resolve(report, ["Accounts", "0", "Account"]) == None by {
      assert Step(report, "Accounts") == Some(Arr([Text("")]));
      assert ["Accounts", "0", "Account"][1..] == ["0", "Account"];
    }
  }

  /** A file that cannot be read, or markup that does not parse, yields the
      wrapped error and no record. */
  lemma UnreadableOrMalformedFails(reason: string, now: int, parseDate: DateParser)
    ensures Normalize(Unreadable(reason), now, parseDate).error.message == ErrorPrefix + reason
    ensures Normalize(Malformed(reason), now, parseDate).error.message == ErrorPrefix + reason
  {
  }
}
