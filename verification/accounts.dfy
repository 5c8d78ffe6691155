/** The account walk: each account of the report is resolved into a
    record, classified by status and by type, and folded into running
    counts, balance sums and the address set, in document order. */
module Accounts {
  import opened Wrappers
  import opened Tree
  import opened Strings
  import opened Numbers
  import opened Addresses

  /** Account types whose lower-cased name contains one of these are secured. */
  const SecuredTypes: seq<string> := ["auto loan", "home loan", "mortgage", "secured"]

  datatype StatusClass = Active | Closed | Neither

  /** Active when the lower-cased status contains "active" or the status is
      the code "11"; failing that, closed when it contains "closed". */
  function ClassifyStatus(status: string): StatusClass {
    var lower := ToLower(status);
    if Contains(lower, "active") || status == "11" then Active
    else if Contains(lower, "closed") then Closed
    else Neither
  }

  predicate IsSecured(accountType: string) {
    exists i :: 0 <= i < |SecuredTypes| && Contains(ToLower(accountType), SecuredTypes[i])
  }

  /** One entry of `creditAccounts`. */
  datatype AccountRecord = AccountRecord(
    accountType: string,
    bank: Val,
    accountNumber: Val,
    currentBalance: Number,
    amountOverdue: Number,
    address: Val,
    status: string)

  /** A resolved account: its record, the address the set receives (if
      any), and the classes its status and its type fall in. */
  datatype Entry = Entry(record: AccountRecord, address: Option<Val>, statusClass: StatusClass, secured: bool)

  /** The reader the walk applies to each account. */
  type Reader = Val -> Result<Entry, string>

  /** `parseFloat(x || 0)`: an absent amount is 0; text is parsed; any other
      value converts to NaN. */
  function Amount(x: Option<Val>): Number {
    match x
    case None => Zero
    case Some(Text(s)) => ParseFloat(s)
    case Some(_) => NaN
  }

  /** The candidate paths of each account field, in the order the `||` chains try them. */
  const TypePaths: seq<seq<string>> := [["AccountType", "0"], ["Type", "0"]]
  const StatusPaths: seq<seq<string>> := [["Status", "0"], ["AccountStatus", "0"]]
  const BalancePaths: seq<seq<string>> := [["CurrentBalance", "0"], ["Balance", "0"]]
  const OverduePaths: seq<seq<string>> := [["AmountOverdue", "0"], ["Overdue", "0"]]
  const AddressPaths: seq<seq<string>> := [["Address", "0"], ["Subscriber", "0", "Address", "0"]]
  const BankPaths: seq<seq<string>> := [["Institution", "0"], ["Subscriber", "0", "Name", "0"]]
  const NumberPaths: seq<seq<string>> := [["AccountNumber", "0"], ["Number", "0"]]

  function TypeOf(acc: Val): Val {
    TextOr(acc, TypePaths, Text("Unknown"))
  }

  function StatusOf(acc: Val): Val {
    TextOr(acc, StatusPaths, Text("Unknown"))
  }

  function AddressOf(acc: Val): Option<Val> {
    FirstText(acc, AddressPaths)
  }

  /** The JavaScript message of calling `.toLowerCase()` on a non-string. */
  function NotAFunction(callee: string): string {
    callee + " is not a function"
  }

  /** One pass of the `forEach` body. Lower-casing a status or type that is
      not text throws; the status is lower-cased first. */
  function ReadAccount(acc: Val): (r: Result<Entry, string>)
    ensures r.Failure? <==> !StatusOf(acc).Text? || !TypeOf(acc).Text?
    ensures !StatusOf(acc).Text? ==> r == Failure(NotAFunction("status.toLowerCase"))
    ensures StatusOf(acc).Text? && !TypeOf(acc).Text? ==> r == Failure(NotAFunction("accountType.toLowerCase"))
    ensures r.Success? ==> r.value.record.status == StatusOf(acc).s && r.value.record.accountType == TypeOf(acc).s
    ensures r.Success? ==> r.value.statusClass == ClassifyStatus(r.value.record.status)
    ensures r.Success? ==> r.value.secured == IsSecured(r.value.record.accountType)
    ensures r.Success? ==> r.value.address == AddressOf(acc)
    ensures r.Success? ==> r.value.record.address == (if AddressOf(acc).Some? then AddressOf(acc).value else Text("N/A"))
    ensures r.Success? ==> r.value.record.currentBalance == Amount(FirstText(acc, BalancePaths))
    ensures r.Success? ==> r.value.record.amountOverdue == Amount(FirstText(acc, OverduePaths))
    ensures r.Success? ==> r.value.record.bank == (if FirstText(acc, BankPaths).Some? then FirstText(acc, BankPaths).value else Text("N/A"))
    ensures r.Success? ==> r.value.record.accountNumber == (if FirstText(acc, NumberPaths).Some? then FirstText(acc, NumberPaths).value else Text("N/A"))
    ensures r.Success? ==> Truthy(r.value.record.bank) && Truthy(r.value.record.accountNumber) && Truthy(r.value.record.address)
  {
    var accountType := TypeOf(acc);
    var status := StatusOf(acc);
    var balance := Amount(FirstText(acc, BalancePaths));
    var overdue := Amount(FirstText(acc, OverduePaths));
    if !status.Text? then Failure(NotAFunction("status.toLowerCase"))
    else if !accountType.Text? then Failure(NotAFunction("accountType.toLowerCase"))
    else
      var address := AddressOf(acc);
      var bank := TextOr(acc, BankPaths, Text("N/A"));
      var number := TextOr(acc, NumberPaths, Text("N/A"));
      var record := AccountRecord(accountType.s, bank, number, balance, overdue, address.GetOr(Text("N/A")), status.s);
      Success(Entry(record, address, ClassifyStatus(status.s), IsSecured(accountType.s)))
  }

  /** The running state of the walk. */
  datatype Tally = Tally(
    records: seq<AccountRecord>,
    balance: Number,
    secured: Number,
    unsecured: Number,
    active: nat,
    closed: nat,
    addresses: seq<Val>)

  const Start: Tally := Tally([], Zero, Zero, Zero, 0, 0, [])

  /** The summary invariants: the two status counters never exceed the
      records seen, and the two balance buckets add up to the total. */
  predicate Consistent(t: Tally) {
    t.active + t.closed <= |t.records| && Plus(t.secured, t.unsecured) == t.balance
  }

  /** Folding one resolved account into the tally. */
  function Absorb(t: Tally, e: Entry): (r: Tally)
    ensures Consistent(t) ==> Consistent(r)
    ensures r.records == t.records + [e.record]
  {
    var rec := e.record;
    var c := e.statusClass;
    var secured := e.secured;
    PlusAssociative(t.secured, t.unsecured, rec.currentBalance);
    PlusAssociative(t.secured, rec.currentBalance, t.unsecured);
    PlusCommutative(t.unsecured, rec.currentBalance);
    Tally(
      t.records + [rec],
      Plus(t.balance, rec.currentBalance),
      if secured then Plus(t.secured, rec.currentBalance) else t.secured,
      if secured then t.unsecured else Plus(t.unsecured, rec.currentBalance),
      if c == Active then t.active + 1 else t.active,
      if c == Closed then t.closed + 1 else t.closed,
      match e.address case Some(a) => Insert(t.addresses, a) case None => t.addresses)
  }

  /** `accounts.forEach(...)` from the tally `t`: stops at the first account
      that throws. */
  function Walk(t: Tally, accs: seq<Val>, read: Reader): (r: Result<Tally, string>)
    ensures r.Success? ==> |r.value.records| == |t.records| + |accs|
    ensures r.Success? ==> r.value.records[..|t.records|] == t.records
    ensures r.Success? && Consistent(t) ==> Consistent(r.value)
    ensures r.Failure? <==> exists i :: 0 <= i < |accs| && read(accs[i]).Failure?
    decreases |accs|
  {
    if accs == [] then Success(t)
    else match read(accs[0])
      case Failure(m) => Failure(m)
      case Success(e) =>
        var r := Walk(Absorb(t, e), accs[1..], read);
        assert forall i :: 1 <= i < |accs| ==> accs[i] == accs[1..][i - 1];
        assert r.Success? ==> r.value.records[..|t.records|] == (t.records + [e.record])[..|t.records|];
        r
  }

  /** Reference definition: every account resolved on its own, or the error
      of the first one that throws. */
  function Entries(accs: seq<Val>, read: Reader): (r: Result<seq<Entry>, string>)
    ensures r.Success? <==> forall i :: 0 <= i < |accs| ==> read(accs[i]).Success?
    ensures r.Success? ==> |r.value| == |accs|
    ensures r.Success? ==> forall i :: 0 <= i < |accs| ==> read(accs[i]) == Success(r.value[i])
    ensures r.Failure? ==> exists i :: 0 <= i < |accs| && read(accs[i]) == Failure(r.error) &&
                                       forall j :: 0 <= j < i ==> read(accs[j]).Success?
    decreases |accs|
  {
    if accs == [] then Success([])
    else
      assert forall i :: 1 <= i < |accs| ==> accs[i] == accs[1..][i - 1];
      match read(accs[0])
      case Failure(m) => Failure(m)
      case Success(e) =>
        match Entries(accs[1..], read)
        case Failure(m) => Failure(m)
        case Success(es) => Success([e] + es)
  }

  function Records(es: seq<Entry>): (rs: seq<AccountRecord>)
    ensures |rs| == |es| && forall i :: 0 <= i < |es| ==> rs[i] == es[i].record
  {
    if es == [] then [] else [es[0].record] + Records(es[1..])
  }

  /** The addresses the accounts hand to the set, in order. */
  function AddressesOf(es: seq<Entry>): seq<Val> {
    if es == [] then []
    else (match es[0].address case Some(a) => [a] case None => []) + AddressesOf(es[1..])
  }

  /** Reference sum of every record's balance. */
  function BalanceSum(rs: seq<AccountRecord>): Number {
    if rs == [] then Zero else Plus(rs[0].currentBalance, BalanceSum(rs[1..]))
  }

  /** Reference sum of the balances of the secured (or of the unsecured) accounts. */
  function BucketSum(es: seq<Entry>, secured: bool): Number {
    if es == [] then Zero
    else if es[0].secured == secured then Plus(es[0].record.currentBalance, BucketSum(es[1..], secured))
    else BucketSum(es[1..], secured)
  }

  /** Reference count of the accounts whose status falls in class `c`. */
  function CountStatus(es: seq<Entry>, c: StatusClass): nat {
    if es == [] then 0
    else (if es[0].statusClass == c then 1 else 0) + CountStatus(es[1..], c)
  }

  /** The walk computes exactly the reference quantities of the accounts it
      resolves, and fails exactly when, and with the error with which, the
      first failing account fails. */
  lemma {:induction false} WalkMatchesEntries(t: Tally, accs: seq<Val>, read: Reader)
    ensures Walk(t, accs, read).Failure? <==> Entries(accs, read).Failure?
    ensures Walk(t, accs, read).Failure? ==> Walk(t, accs, read).error == Entries(accs, read).error
    ensures Entries(accs, read).Success? ==>
      var es := Entries(accs, read).value;
      var u := Walk(t, accs, read).value;
      && u.records == t.records + Records(es)
      && u.balance == Plus(t.balance, BalanceSum(Records(es)))
      && u.secured == Plus(t.secured, BucketSum(es, true))
      && u.unsecured == Plus(t.unsecured, BucketSum(es, false))
      && u.active == t.active + CountStatus(es, Active)
      && u.closed == t.closed + CountStatus(es, Closed)
      && u.addresses == AddAll(t.addresses, AddressesOf(es))
    decreases |accs|
  {
    if accs == [] {
      assert t.records + [] == t.records;
    } else {
      match read(accs[0])
      case Failure(m) =>
        assert Walk(t, accs, read) == Failure(m);
        assert Entries(accs, read) == Failure(m);
      case Success(e) =>
        var t' := Absorb(t, e);
        WalkMatchesEntries(t', accs[1..], read);
        assert Walk(t, accs, read) == Walk(t', accs[1..], read);
        match Entries(accs[1..], read)
        case Failure(m) =>
          assert Entries(accs, read) == Failure(m);
        case Success(es') =>
          var es := [e] + es';
          assert Entries(accs, read) == Success(es);
          AbsorbThenRest(t, e, es');
    }
  }

  /** A walk from the empty tally that completes holds exactly the
      reference quantities of the accounts: their records in order, the
      balance, bucket and status sums, and their addresses deduplicated in
      first-occurrence order. */
  lemma WalkFromStart(accs: seq<Val>, read: Reader)
    requires Walk(Start, accs, read).Success?
    ensures Entries(accs, read).Success?
    ensures
      var es := Entries(accs, read).value;
      var u := Walk(Start, accs, read).value;
      && u.records == Records(es)
      && u.balance == BalanceSum(Records(es))
      && u.secured == BucketSum(es, true)
      && u.unsecured == BucketSum(es, false)
      && u.active == CountStatus(es, Active)
      && u.closed == CountStatus(es, Closed)
      && u.addresses == KeepFirst(AddressesOf(es))
      && NoDuplicateText(u.addresses)
      && (forall x :: x in u.addresses <==> x in AddressesOf(es))
  {
    WalkMatchesEntries(Start, accs, read);
    var es := Entries(accs, read).value;
    CollectedAddresses(AddressesOf(es));
    assert [] + Records(es) == Records(es);
  }

  /** The reference quantities of `[e] + es'` from `t` are those of `es'` from `Absorb(t, e)`. */
  lemma AbsorbThenRest(t: Tally, e: Entry, es': seq<Entry>)
    ensures
      var es := [e] + es';
      var t' := Absorb(t, e);
      && t'.records + Records(es') == t.records + Records(es)
      && Plus(t'.balance, BalanceSum(Records(es'))) == Plus(t.balance, BalanceSum(Records(es)))
      && Plus(t'.secured, BucketSum(es', true)) == Plus(t.secured, BucketSum(es, true))
      && Plus(t'.unsecured, BucketSum(es', false)) == Plus(t.unsecured, BucketSum(es, false))
      && t'.active + CountStatus(es', Active) == t.active + CountStatus(es, Active)
      && t'.closed + CountStatus(es', Closed) == t.closed + CountStatus(es, Closed)
      && AddAll(t'.addresses, AddressesOf(es')) == AddAll(t.addresses, AddressesOf(es))
  {
    var es := [e] + es';
    assert es[0] == e && es[1..] == es';
    var rs' := Records(es');
    assert Records(es) == [e.record] + rs';
    assert ([e.record] + rs')[0] == e.record && ([e.record] + rs')[1..] == rs';
    var b := e.record.currentBalance;
    PlusAssociative(t.balance, b, BalanceSum(rs'));
    PlusAssociative(t.secured, b, BucketSum(es', true));
    PlusAssociative(t.unsecured, b, BucketSum(es', false));
    assert t.records + [e.record] + rs' == t.records + ([e.record] + rs');
    match e.address
    case Some(a) =>
      assert AddressesOf(es) == [a] + AddressesOf(es');
      assert ([a] + AddressesOf(es'))[0] == a && ([a] + AddressesOf(es'))[1..] == AddressesOf(es');
    case None =>
      assert AddressesOf(es) == AddressesOf(es');
  }

  /** Every balance lands in exactly one bucket, so the buckets add up to the total. */
  lemma {:induction false} BucketsCoverBalance(es: seq<Entry>)
    ensures Plus(BucketSum(es, true), BucketSum(es, false)) == BalanceSum(Records(es))
  {
    if es != [] {
      BucketsCoverBalance(es[1..]);
      var rs := Records(es);
      assert rs[1..] == Records(es[1..]);
      var b := es[0].record.currentBalance;
      assert BalanceSum(rs) == Plus(b, BalanceSum(Records(es[1..])));
      var s, u := BucketSum(es[1..], true), BucketSum(es[1..], false);
      if es[0].secured {
        assert BucketSum(es, true) == Plus(b, s) && BucketSum(es, false) == u;
        PlusAssociative(b, s, u);
      } else {
        assert BucketSum(es, true) == s && BucketSum(es, false) == Plus(b, u);
        PlusAssociative(s, b, u);
        PlusAssociative(b, s, u);
        PlusCommutative(s, b);
      }
    }
  }

  /** Every account is in exactly one status class. */
  lemma {:induction false} StatusClassesPartition(es: seq<Entry>)
    ensures CountStatus(es, Active) + CountStatus(es, Closed) + CountStatus(es, Neither) == |es|
  {
    if es != [] {
      StatusClassesPartition(es[1..]);
    }
  }

  /** Lower-casing text whose letters are already small, or mapping each to its small form. */
  lemma LowerIs(s: string, t: string)
    requires |s| == |t| && forall i :: 0 <= i < |s| ==> LowerChar(s[i]) == t[i]
    ensures ToLower(s) == t
  {
  }

  /** A character of `t` that `s` lacks keeps `t` out of `s`. */
  lemma MissingCharNotContained(s: string, t: string, k: int)
    requires 0 <= k < |t| && forall i :: 0 <= i < |s| ==> s[i] != t[k]
    ensures !Contains(s, t)
  {
  }

  /** "Inactive" contains "active", and the active test comes first. */
  lemma InactiveCountsAsActive(status: string)
    requires status == "Inactive"
    ensures ClassifyStatus(status) == Active
  {
    LowerIs(status, "inactive");
    assert OccursAt("inactive", "active", 2);
  }

  /** The status code "11" is active. */
  lemma StatusCodeEleven()
    ensures ClassifyStatus("11") == Active
  {
  }

  /** "Active", the status of the unit test's open accounts, is active. */
  lemma ActiveIsActive(status: string)
    requires status == "Active"
    ensures ClassifyStatus(status) == Active
  {
    LowerIs(status, "active");
    assert OccursAt("active", "active", 0);
  }

  /** "Closed", the status of the unit test's closed account, is closed. */
  lemma ClosedIsClosed(status: string)
    requires status == "Closed"
    ensures ClassifyStatus(status) == Closed
  {
    LowerIs(status, "closed");
    MissingCharNotContained("closed", "active", 0);
    assert OccursAt("closed", "closed", 0);
  }

  /** The default status "Unknown" falls in neither class. */
  lemma UnknownIsNeither(status: string)
    requires status == "Unknown"
    ensures ClassifyStatus(status) == Neither
  {
    LowerIs(status, "unknown");
    MissingCharNotContained("unknown", "active", 0);
    MissingCharNotContained("unknown", "closed", 0);
  }

  /** An auto loan is secured. */
  lemma AutoLoanIsSecured(accountType: string)
    requires accountType == "Auto Loan"
    ensures IsSecured(accountType)
  {
    LowerIs(accountType, "auto loan");
    assert OccursAt("auto loan", SecuredTypes[0], 0);
  }

  /** One of the letters each secured keyword has and "credit card" lacks. */
  predicate IsKeywordLetter(c: char) {
    c == 'u' || c == 'h' || c == 'm' || c == 's'
  }

  /** A type whose lower-cased form lacks the letters u, h, m and s names
      no secured keyword. */
  lemma UnsecuredWithoutKeywordLetters(accountType: string)
    requires forall i :: 0 <= i < |ToLower(accountType)| ==> !IsKeywordLetter(ToLower(accountType)[i])
    ensures !IsSecured(accountType)
  {
    var lower := ToLower(accountType);
    forall i | 0 <= i < |SecuredTypes|
      ensures !Contains(lower, SecuredTypes[i])
    {
      var k := if i == 0 then 1 else 0;
      assert IsKeywordLetter(SecuredTypes[i][k]);
      MissingCharNotContained(lower, SecuredTypes[i], k);
    }
  }

  /** A credit card is unsecured. */
  lemma CreditCardIsUnsecured(accountType: string)
    requires accountType == "Credit Card"
    ensures !IsSecured(accountType)
  {
    LowerIs(accountType, "credit card");
    UnsecuredWithoutKeywordLetters(accountType);
  }

  /** The counts of three entries classed active, closed, active. */
  lemma CountActiveClosedActive(es: seq<Entry>)
    requires |es| == 3
    requires es[0].statusClass == Active && es[1].statusClass == Closed && es[2].statusClass == Active
    ensures CountStatus(es, Active) == 2 && CountStatus(es, Closed) == 1
  {
    var t := es[1..];
    var u := t[1..];
    assert u == [es[2]] && u[1..] == [];
    assert CountStatus(u, Active) == 1 && CountStatus(u, Closed) == 0;
    assert CountStatus(t, Active) == 1 && CountStatus(t, Closed) == 1;
  }

  /** Two active accounts and one closed one, as in the unit test's report,
      count two active and one closed. */
  lemma TwoActiveOneClosed(es: seq<Entry>)
    requires |es| == 3
    requires forall i :: 0 <= i < |es| ==> es[i].statusClass == ClassifyStatus(es[i].record.status)
    requires es[0].record.status == "Active" && es[1].record.status == "Closed" && es[2].record.status == "Active"
    ensures CountStatus(es, Active) == 2 && CountStatus(es, Closed) == 1
  {
    ActiveIsActive(es[0].record.status);
    ClosedIsClosed(es[1].record.status);
    ActiveIsActive(es[2].record.status);
    CountActiveClosedActive(es);
  }

  /** The sums of a secured balance of 50000 followed by an unsecured one of 25000. */
  lemma SecuredThenUnsecured(es: seq<Entry>)
    requires |es| == 2
    requires es[0].secured && !es[1].secured
    requires es[0].record.currentBalance == Num(50000.0) && es[1].record.currentBalance == Num(25000.0)
    ensures BucketSum(es, true) == Num(50000.0)
    ensures BucketSum(es, false) == Num(25000.0)
    ensures BalanceSum(Records(es)) == Num(75000.0)
  {
    var t := es[1..];
    var e := t[1..];
    assert e == [];
    calc {
      BucketSum(es, true);
      Plus(Num(50000.0), BucketSum(t, true));
      Plus(Num(50000.0), BucketSum(e, true));
      Num(50000.0);
    }
    calc {
      BucketSum(es, false);
      BucketSum(t, false);
      Plus(Num(25000.0), BucketSum(e, false));
      Num(25000.0);
    }
    BucketsCoverBalance(es);
  }

  /** An auto loan of 50000 and a credit card of 25000 put 50000 in the
      secured bucket and 25000 in the unsecured one, out of 75000. */
  lemma AutoLoanAndCreditCardBuckets(es: seq<Entry>)
    requires |es| == 2
    requires forall i :: 0 <= i < |es| ==> es[i].secured == IsSecured(es[i].record.accountType)
    requires es[0].record.accountType == "Auto Loan" && es[0].record.currentBalance == Num(50000.0)
    requires es[1].record.accountType == "Credit Card" && es[1].record.currentBalance == Num(25000.0)
    ensures BucketSum(es, true) == Num(50000.0)
    ensures BucketSum(es, false) == Num(25000.0)
    ensures BalanceSum(Records(es)) == Num(75000.0)
  {
    AutoLoanIsSecured(es[0].record.accountType);
    CreditCardIsUnsecured(es[1].record.accountType);
    SecuredThenUnsecured(es);
  }

  /** An account with no status element gets the status "Unknown", which
      falls in neither class, and keeps its place in the record list. */
  lemma MissingStatusIsNeither(acc: Val)
    requires forall i :: 0 <= i < |StatusPaths| ==> !Present(GetText(acc, StatusPaths[i]))
    requires TypeOf(acc).Text?
    ensures ReadAccount(acc).Success?
    ensures ReadAccount(acc).value.record.status == "Unknown"
    ensures ReadAccount(acc).value.statusClass == Neither
  {
    TextOrDefault(acc, StatusPaths, Text("Unknown"));
    UnknownIsNeither("Unknown");
  }

  /** The status classes ignore letter case: "ACTIVE", "Active" and "active" fall in one class. */
  lemma ClassifyIgnoresCase(status: string)
    ensures ClassifyStatus(ToLower(status)) == ClassifyStatus(status)
  {
    ToLowerIdempotent(status);
    if ToLower(status) == "11" {
      assert forall i :: 0 <= i < |status| ==> LowerChar(status[i]) == '1';
      assert status == "11";
    }
    if status == "11" {
      LowerIs(status, "11");
    }
  }

  /** Whether a type is secured ignores letter case. */
  lemma IsSecuredIgnoresCase(accountType: string)
    ensures IsSecured(ToLower(accountType)) == IsSecured(accountType)
  {
    ToLowerIdempotent(accountType);
  }

  /** A type that mentions a secured keyword anywhere is secured, whatever surrounds it. */
  lemma SecuredKeywordAnywhere(before: string, after: string, i: int)
    requires 0 <= i < |SecuredTypes|
    ensures IsSecured(before + SecuredTypes[i] + after)
  {
    var k := SecuredTypes[i];
    LowerIs(k, k);
    ToLowerAppend(before + k, after);
    ToLowerAppend(before, k);
    var lower := ToLower(before + k + after);
    assert lower == ToLower(before) + k + ToLower(after);
    assert lower[|before|..|before| + |k|] == k;
    assert OccursAt(lower, k, |before|);
  }

  /** An amount written as a decimal numeral reads as that number, and an absent amount as 0. */
  lemma AmountNumeral(n: nat)
    ensures Amount(Some(Text(Decimal(n)))) == Num(n as real)
    ensures Amount(None) == Zero
  {
    ParseFloatNumeral(n, []);
    assert Decimal(n) + [] == Decimal(n);
  }

  /** A field none of whose candidate paths yields a truthy value takes its
      default: "N/A" for the bank, the number and the address, "Unknown" for
      the type, 0 for the balance and the amount overdue. */
  lemma MissingFieldsDefault(acc: Val)
    ensures ReadAccount(acc).Success? ==>
      var rec := ReadAccount(acc).value.record;
      && ((forall i :: 0 <= i < |TypePaths| ==> !Present(GetText(acc, TypePaths[i]))) ==> rec.accountType == "Unknown")
      && ((forall i :: 0 <= i < |BankPaths| ==> !Present(GetText(acc, BankPaths[i]))) ==> rec.bank == Text("N/A"))
      && ((forall i :: 0 <= i < |NumberPaths| ==> !Present(GetText(acc, NumberPaths[i]))) ==> rec.accountNumber == Text("N/A"))
      && ((forall i :: 0 <= i < |AddressPaths| ==> !Present(GetText(acc, AddressPaths[i]))) ==> rec.address == Text("N/A"))
      && ((forall i :: 0 <= i < |BalancePaths| ==> !Present(GetText(acc, BalancePaths[i]))) ==> rec.currentBalance == Zero)
      && ((forall i :: 0 <= i < |OverduePaths| ==> !Present(GetText(acc, OverduePaths[i]))) ==> rec.amountOverdue == Zero)
  {
    TextOrDefault(acc, TypePaths, Text("Unknown"));
    TextOrDefault(acc, BankPaths, Text("N/A"));
    TextOrDefault(acc, NumberPaths, Text("N/A"));
    TextOrDefault(acc, AddressPaths, Text("N/A"));
    TextOrDefault(acc, BalancePaths, Text("0"));
    TextOrDefault(acc, OverduePaths, Text("0"));
  }

  /** An `<Account>` element as the parser delivers it: each child element
      named in `fields` becomes an array holding its text. */
  function AccountElement(fields: map<string, string>): Val {
    Obj(map k | k in fields :: Arr([Text(fields[k])]))
  }

  /** The first candidate path `[k, "0"]` of a chain finds the text of a non-empty child `k`. */
  lemma ElementChild(fields: map<string, string>, paths: seq<seq<string>>)
    requires paths != [] && |paths[0]| == 2 && paths[0][1] == "0"
    requires paths[0][0] in fields && fields[paths[0][0]] != ""
    ensures FirstText(AccountElement(fields), paths) == Some(Text(fields[paths[0][0]]))
  {
    var acc, k := AccountElement(fields), paths[0][0];
    var t := Text(fields[k]);
    assert Step(acc, k) == Some(Arr([t]));
    assert Resolve(Arr([t]), ["0"]) == Some(t) by {
      assert DigitsValue("0") == 0;
      assert Step(Arr([t]), "0") == Some(t);
      assert Resolve(t, []) == Some(t);
    }
    assert Resolve(acc, paths[0]) == Some(t) by {
      assert paths[0][0] == k && paths[0][1..] == ["0"];
    }
  }

  /** Reading an `<Account>` element with a type and a status: the record
      carries them, and every other field present as text is read from it. */
  lemma ReadAccountElement(fields: map<string, string>)
    requires "AccountType" in fields && fields["AccountType"] != ""
    requires "Status" in fields && fields["Status"] != ""
    ensures ReadAccount(AccountElement(fields)).Success?
    ensures
      var e := ReadAccount(AccountElement(fields)).value;
      && e.record.accountType == fields["AccountType"] && e.record.status == fields["Status"]
      && ("CurrentBalance" in fields && fields["CurrentBalance"] != "" ==> e.record.currentBalance == ParseFloat(fields["CurrentBalance"]))
      && ("AmountOverdue" in fields && fields["AmountOverdue"] != "" ==> e.record.amountOverdue == ParseFloat(fields["AmountOverdue"]))
      && ("Institution" in fields && fields["Institution"] != "" ==> e.record.bank == Text(fields["Institution"]))
      && ("AccountNumber" in fields && fields["AccountNumber"] != "" ==> e.record.accountNumber == Text(fields["AccountNumber"]))
      && ("Address" in fields && fields["Address"] != "" ==> e.address == Some(Text(fields["Address"])))
  {
    ElementChild(fields, TypePaths);
    ElementChild(fields, StatusPaths);
    if "CurrentBalance" in fields && fields["CurrentBalance"] != "" {
      ElementChild(fields, BalancePaths);
    }
    if "AmountOverdue" in fields && fields["AmountOverdue"] != "" {
      ElementChild(fields, OverduePaths);
    }
    if "Institution" in fields && fields["Institution"] != "" {
      ElementChild(fields, BankPaths);
    }
    if "AccountNumber" in fields && fields["AccountNumber"] != "" {
      ElementChild(fields, NumberPaths);
    }
    if "Address" in fields && fields["Address"] != "" {
      ElementChild(fields, AddressPaths);
    }
  }
}
