/** The unit tests' reports as parsed trees, and what normalising them
    yields. The applicant and score elements, which no account or enquiry
    quantity reads, are left out of the account trees. Amounts are written
    as the numerals `Decimal(n)`. */
module Scenarios {
  import opened Wrappers
  import opened Tree
  import opened Numbers
  import opened Addresses
  import opened Accounts
  import opened Enquiries
  import opened Normalizer

  /** The `<CreditReport>` element holding one `<Accounts>` element with the given `<Account>` elements. */
  function AccountsRoot(accs: seq<Val>): Val {
    Obj(map["Accounts" := Arr([Obj(map["Account" := Arr(accs)])])])
  }

  /** The parsed tree of a report whose only section lists `accs`. */
  function AccountsReport(accs: seq<Val>): Val {
    Obj(map["CreditReport" := AccountsRoot(accs)])
  }

  /** Where the account report leads: its root is the `CreditReport`
      element, whose account list is `accs` and which has no enquiries. */
  lemma AccountsReportShape(accs: seq<Val>)
    ensures ReportRoot(AccountsReport(accs)) == AccountsRoot(accs)
    ensures AccountsOf(AccountsRoot(accs)) == Arr(accs)
    ensures EnquiriesOf(AccountsRoot(accs)) == Arr([])
  {
    var tree, report := AccountsReport(accs), AccountsRoot(accs);
    assert ReportRoot(tree) == report by {
      assert Resolve(tree, ["CreditReport"]) == Some(report);
      ReportRootFallback(tree);
    }
    var section := Obj(map["Account" := Arr(accs)]);
    assert Resolve(report, ["Accounts", "0", "Account"]) == Some(Arr(accs)) by {
      assert Step(report, "Accounts") == Some(Arr([section]));
      assert DigitsValue("0") == 0;
      assert Step(Arr([section]), "0") == Some(section);
      assert Resolve(section, ["Account"]) == Some(Arr(accs));
      assert Resolve(Arr([section]), ["0", "Account"]) == Some(Arr(accs));
    }
  }

  /** A report whose accounts all read is normalised, and the result holds
      the reference quantities of those accounts. */
  lemma AccountsReportNormalizes(accs: seq<Val>, now: int, parseDate: DateParser)
    requires Entries(accs, ReadAccount).Success?
    ensures Normalize(Parsed(AccountsReport(accs)), now, parseDate).Success?
    ensures AgreesWithReference(AccountsRoot(accs), Normalize(Parsed(AccountsReport(accs)), now, parseDate).value, now, parseDate)
  {
    AccountsReportShape(accs);
    NormalizeMatchesReference(Parsed(AccountsReport(accs)), now, parseDate);
  }

  /** An `<Account>` element as the unit tests write them: a type, a
      status, a current balance and an amount overdue. */
  function TestAccount(accountType: string, status: string, balance: nat, overdue: nat): Val {
    AccountElement(map["AccountType" := accountType, "Status" := status,
                       "CurrentBalance" := Decimal(balance), "AmountOverdue" := Decimal(overdue)])
  }

  /** Such an account reads with its type, its status and both amounts. */
  lemma TestAccountReads(accountType: string, status: string, balance: nat, overdue: nat)
    requires accountType != "" && status != ""
    ensures ReadAccount(TestAccount(accountType, status, balance, overdue)).Success?
    ensures
      var rec := ReadAccount(TestAccount(accountType, status, balance, overdue)).value.record;
      && rec.accountType == accountType && rec.status == status
      && rec.currentBalance == Num(balance as real) && rec.amountOverdue == Num(overdue as real)
  {
    var fields := map["AccountType" := accountType, "Status" := status,
                       "CurrentBalance" := Decimal(balance), "AmountOverdue" := Decimal(overdue)];
    assert TestAccount(accountType, status, balance, overdue) == AccountElement(fields);
    assert fields["AccountType"] == accountType && fields["Status"] == status;
    assert fields["CurrentBalance"] == Decimal(balance) != "" && fields["AmountOverdue"] == Decimal(overdue) != "";
    ReadAccountElement(fields);
    assert ParseFloat(Decimal(balance)) == Num(balance as real) by {
      ParseFloatNumeral(balance, []);
      assert Decimal(balance) + [] == Decimal(balance);
    }
    assert ParseFloat(Decimal(overdue)) == Num(overdue as real) by {
      ParseFloatNumeral(overdue, []);
      assert Decimal(overdue) + [] == Decimal(overdue);
    }
  }

  /** Three accounts that each read give three entries, in their order. */
  lemma ThreeEntries(accs: seq<Val>, read: Reader)
    requires |accs| == 3
    requires read(accs[0]).Success? && read(accs[1]).Success? && read(accs[2]).Success?
    ensures Entries(accs, read).Success?
    ensures Entries(accs, read).value == [read(accs[0]).value, read(accs[1]).value, read(accs[2]).value]
  {
    assert accs == [accs[0], accs[1], accs[2]];
  }

  /** Three accounts that read with the statuses Active, Closed and Active
      count three in total, two active and one closed. */
  lemma StatusCountsOfReport(accs: seq<Val>, now: int, parseDate: DateParser)
    requires |accs| == 3
    requires ReadAccount(accs[0]).Success? && ReadAccount(accs[0]).value.record.status == "Active"
    requires ReadAccount(accs[1]).Success? && ReadAccount(accs[1]).value.record.status == "Closed"
    requires ReadAccount(accs[2]).Success? && ReadAccount(accs[2]).value.record.status == "Active"
    ensures Normalize(Parsed(AccountsReport(accs)), now, parseDate).Success?
    ensures
      var s := Normalize(Parsed(AccountsReport(accs)), now, parseDate).value.reportSummary;
      s.totalAccounts == 3 && s.activeAccounts == 2 && s.closedAccounts == 1
  {
    ThreeEntries(accs, ReadAccount);
    var es := Entries(accs, ReadAccount).value;
    assert CountStatus(es, Active) == 2 && CountStatus(es, Closed) == 1 by {
      assert es == [ReadAccount(accs[0]).value, ReadAccount(accs[1]).value, ReadAccount(accs[2]).value];
      TwoActiveOneClosed(es);
    }
    AccountsReportShape(accs);
    AccountsReportNormalizes(accs, now, parseDate);
  }

  /** The status test's report: an active credit card, a closed personal
      loan and an active auto loan count three, two active and one closed. */
  lemma ActiveClosedActiveReport(accs: seq<Val>, now: int, parseDate: DateParser)
    requires |accs| == 3
    requires accs[0] == TestAccount("Credit Card", "Active", 10000, 0)
    requires accs[1] == TestAccount("Personal Loan", "Closed", 0, 0)
    requires accs[2] == TestAccount("Auto Loan", "Active", 50000, 0)
    ensures Normalize(Parsed(AccountsReport(accs)), now, parseDate).Success?
    ensures
      var s := Normalize(Parsed(AccountsReport(accs)), now, parseDate).value.reportSummary;
      s.totalAccounts == 3 && s.activeAccounts == 2 && s.closedAccounts == 1
  {
    assert ReadAccount(accs[0]).Success? && ReadAccount(accs[0]).value.record.status == "Active" by {
      TestAccountReads("Credit Card", "Active", 10000, 0);
    }
    assert ReadAccount(accs[1]).Success? && ReadAccount(accs[1]).value.record.status == "Closed" by {
      TestAccountReads("Personal Loan", "Closed", 0, 0);
    }
    assert ReadAccount(accs[2]).Success? && ReadAccount(accs[2]).value.record.status == "Active" by {
      TestAccountReads("Auto Loan", "Active", 50000, 0);
    }
    StatusCountsOfReport(accs, now, parseDate);
  }

  /** Two accounts that each read give two entries, in their order. */
  lemma TwoEntries(accs: seq<Val>, read: Reader)
    requires |accs| == 2
    requires read(accs[0]).Success? && read(accs[1]).Success?
    ensures Entries(accs, read).Success?
    ensures Entries(accs, read).value == [read(accs[0]).value, read(accs[1]).value]
  {
    assert accs == [accs[0], accs[1]];
  }

  /** The balance of two records is the sum of their balances. */
  lemma TwoBalances(rs: seq<AccountRecord>, a: real, b: real)
    requires |rs| == 2
    requires rs[0].currentBalance == Num(a) && rs[1].currentBalance == Num(b)
    ensures BalanceSum(rs) == Num(a + b)
  {
    var t := rs[1..];
    assert t[1..] == [];
    assert BalanceSum(t) == Num(b);
  }

  /** Two accounts that read with balances `a` and `b` give a current
      balance of `a + b`, and the second record keeps the second account's
      amount overdue `o`. */
  lemma BalanceOfReport(accs: seq<Val>, a: real, b: real, o: real, now: int, parseDate: DateParser)
    requires |accs| == 2
    requires ReadAccount(accs[0]).Success? && ReadAccount(accs[0]).value.record.currentBalance == Num(a)
    requires ReadAccount(accs[1]).Success? && ReadAccount(accs[1]).value.record.currentBalance == Num(b)
    requires ReadAccount(accs[1]).value.record.amountOverdue == Num(o)
    ensures Normalize(Parsed(AccountsReport(accs)), now, parseDate).Success?
    ensures
      var r := Normalize(Parsed(AccountsReport(accs)), now, parseDate).value;
      && r.reportSummary.currentBalanceAmount == Num(a + b)
      && |r.creditAccounts| == 2 && r.creditAccounts[1].amountOverdue == Num(o)
  {
    TwoEntries(accs, ReadAccount);
    AccountsReportShape(accs);
    AccountsReportNormalizes(accs, now, parseDate);
    var es := Entries(accs, ReadAccount).value;
    TwoBalances(Records(es), a, b);
  }

  /** The balance test's report: balances of 25000 and 75000 total 100000,
      and the personal loan keeps its 5000 overdue. */
  lemma CardAndLoanBalanceReport(accs: seq<Val>, now: int, parseDate: DateParser)
    requires |accs| == 2
    requires accs[0] == TestAccount("Credit Card", "Active", 25000, 0)
    requires accs[1] == TestAccount("Personal Loan", "Active", 75000, 5000)
    ensures Normalize(Parsed(AccountsReport(accs)), now, parseDate).Success?
    ensures
      var r := Normalize(Parsed(AccountsReport(accs)), now, parseDate).value;
      && r.reportSummary.currentBalanceAmount == Num(100000.0)
      && |r.creditAccounts| == 2 && r.creditAccounts[1].amountOverdue == Num(5000.0)
  {
    assert ReadAccount(accs[0]).Success? && ReadAccount(accs[0]).value.record.currentBalance == Num(25000.0) by {
      TestAccountReads("Credit Card", "Active", 25000, 0);
    }
    assert ReadAccount(accs[1]).Success? && ReadAccount(accs[1]).value.record.currentBalance == Num(75000.0)
        && ReadAccount(accs[1]).value.record.amountOverdue == Num(5000.0) by {
      TestAccountReads("Personal Loan", "Active", 75000, 5000);
    }
    BalanceOfReport(accs, 25000.0, 75000.0, 5000.0, now, parseDate);
  }

  /** A secured account of 50000 followed by an unsecured one of 25000 put
      50000 in the secured bucket and 25000 in the unsecured one. */
  lemma BucketsOfReport(accs: seq<Val>, now: int, parseDate: DateParser)
    requires |accs| == 2
    requires ReadAccount(accs[0]).Success?
    requires IsSecured(ReadAccount(accs[0]).value.record.accountType)
    requires ReadAccount(accs[0]).value.record.currentBalance == Num(50000.0)
    requires ReadAccount(accs[1]).Success?
    requires !IsSecured(ReadAccount(accs[1]).value.record.accountType)
    requires ReadAccount(accs[1]).value.record.currentBalance == Num(25000.0)
    ensures Normalize(Parsed(AccountsReport(accs)), now, parseDate).Success?
    ensures
      var s := Normalize(Parsed(AccountsReport(accs)), now, parseDate).value.reportSummary;
      s.securedAccountsAmount == Num(50000.0) && s.unsecuredAccountsAmount == Num(25000.0)
  {
    TwoEntries(accs, ReadAccount);
    AccountsReportShape(accs);
    AccountsReportNormalizes(accs, now, parseDate);
    var es := Entries(accs, ReadAccount).value;
    SecuredThenUnsecured(es);
  }

  /** The category test's report: the auto loan is secured, the credit card is not. */
  lemma AutoLoanAndCardReport(accs: seq<Val>, now: int, parseDate: DateParser)
    requires |accs| == 2
    requires accs[0] == TestAccount("Auto Loan", "Active", 50000, 0)
    requires accs[1] == TestAccount("Credit Card", "Active", 25000, 0)
    ensures Normalize(Parsed(AccountsReport(accs)), now, parseDate).Success?
    ensures
      var s := Normalize(Parsed(AccountsReport(accs)), now, parseDate).value.reportSummary;
      s.securedAccountsAmount == Num(50000.0) && s.unsecuredAccountsAmount == Num(25000.0)
  {
    assert ReadAccount(accs[0]).Success? && IsSecured(ReadAccount(accs[0]).value.record.accountType)
        && ReadAccount(accs[0]).value.record.currentBalance == Num(50000.0) by {
      TestAccountReads("Auto Loan", "Active", 50000, 0);
      AutoLoanIsSecured(ReadAccount(accs[0]).value.record.accountType);
    }
    assert ReadAccount(accs[1]).Success? && !IsSecured(ReadAccount(accs[1]).value.record.accountType)
        && ReadAccount(accs[1]).value.record.currentBalance == Num(25000.0) by {
      TestAccountReads("Credit Card", "Active", 25000, 0);
      CreditCardIsUnsecured(ReadAccount(accs[1]).value.record.accountType);
    }
    BucketsOfReport(accs, now, parseDate);
  }
}
