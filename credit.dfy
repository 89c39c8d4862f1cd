/**
 * The credit management page: a sortable, paged table of customers with
 * their credit limit, payment terms and utilisation, a status badge from
 * the utilisation, and the global settings form.
 */
module CreditPage {
  import opened Wrappers
  import opened Ordering
  import opened Sorting
  import opened TableView
  import opened Currency

  /** `DEFAULT_CREDIT_LIMIT`, 50 million rupiah. */
  const DefaultCreditLimit: nat := 50000000
  /** `DEFAULT_PAYMENT_TERMS`, in days. */
  const DefaultPaymentTerms: int := 30

  datatype Customer = Customer(
    id: int, name: string, email: string, creditLimit: nat,
    paymentTerms: int, creditUtilization: nat, overdueInvoices: nat)

  /** The columns with a sort button. */
  datatype CreditField = Name | CreditLimit | PaymentTerms

  function KeyOf(f: CreditField): Customer -> Key
  {
    match f
    case Name => (c: Customer) => Str(c.name)
    case CreditLimit => (c: Customer) => Num(c.creditLimit)
    case PaymentTerms => (c: Customer) => Num(c.paymentTerms)
  }

  datatype CreditStatus = Good | Warning | Critical

  /** The order of concern: good, then warning, then critical. */
  function Severity(s: CreditStatus): nat
  {
    match s
    case Good => 0
    case Warning => 1
    case Critical => 2
  }

  /**
   * `getCreditStatus`: utilisation `used / limit * 100` against 90 and 75,
   * compared exactly by cross-multiplying. With a zero limit the quotient is
   * Infinity when something is used, which is critical, and NaN when nothing
   * is, which fails both tests.
   */
  function GetCreditStatus(used: nat, limit: nat): (s: CreditStatus)
    ensures limit > 0 ==> (s == Critical <==> used * 100 >= 90 * limit)
    ensures limit > 0 ==> (s == Warning <==> 75 * limit <= used * 100 < 90 * limit)
    ensures limit > 0 ==> (s == Good <==> used * 100 < 75 * limit)
    ensures limit == 0 ==> (s == Critical <==> used > 0)
    ensures limit == 0 ==> s != Warning
  {
    if limit == 0 then (if used > 0 then Critical else Good)
    else if used * 100 >= 90 * limit then Critical
    else if used * 100 >= 75 * limit then Warning
    else Good
  }

  /** Both thresholds are inclusive: exactly 75% is a warning, exactly 90% critical. */
  lemma ThresholdsInclusive(limit: nat)
    requires limit > 0
    ensures GetCreditStatus(75 * limit, 100 * limit) == Warning
    ensures GetCreditStatus(90 * limit, 100 * limit) == Critical
  {
  }

  /** For a fixed limit, using more credit never improves the status. */
  lemma StatusMonotone(used: nat, more: nat, limit: nat)
    requires used <= more
    ensures Severity(GetCreditStatus(used, limit)) <= Severity(GetCreditStatus(more, limit))
  {
    assert used * 100 <= more * 100;
  }

  /** The "Global Credit Settings" form. */
  datatype GlobalSettings = GlobalSettings(defaultCreditLimit: Option<nat>, defaultPaymentTerms: int)

  class CreditList {
    const customers: seq<Customer>
    const table: TableState<CreditField>
    var globalSettings: GlobalSettings

    ghost predicate Valid()
      reads this, table
    {
      table.Valid()
    }

    /** The page as it first renders: the default settings, sorted by name ascending, page 1 of 10 rows. */
    constructor (customers: seq<Customer>)
      ensures this.customers == customers
      ensures fresh(table)
      ensures table.Sort() == SortSpec(Name, Asc)
      ensures table.currentPage == 1 && table.rowsPerPage == 10
      ensures globalSettings == GlobalSettings(Some(50000000), 30)
      ensures Valid()
    {
      this.customers := customers;
      table := new TableState(Name, Asc);
      globalSettings := GlobalSettings(Some(DefaultCreditLimit), DefaultPaymentTerms);
    }

    /** `handleSort`: a newly chosen column starts ascending. */
    method HandleSort(f: CreditField)
      modifies table
      ensures table.Sort() == ToggleSort(old(table.Sort()), f, Asc)
      ensures table.currentPage == old(table.currentPage)
      ensures table.rowsPerPage == old(table.rowsPerPage)
    {
      table.HandleSort(f, Asc);
    }

    /** `sortedAndPaginatedData`: the current page of the customers sorted by the current column. */
    method SortedAndPaginatedData() returns (rows: seq<Customer>)
      ensures rows == Visible(customers, KeyOf(table.sortField), table.sortDirection,
                              table.currentPage, table.rowsPerPage)
    {
      rows := SortedAndPaginated(customers, KeyOf(table.sortField), table.sortDirection,
                                 table.currentPage, table.rowsPerPage);
    }

    /** The text the default-credit-limit field shows, with `.` between the groups. */
    function DefaultCreditLimitText(): (text: string)
      reads this
      ensures ParseCurrency(text) == globalSettings.defaultCreditLimit
    {
      AmountRoundTrip(globalSettings.defaultCreditLimit, Dot);
      "Rp " + FormatAmount(globalSettings.defaultCreditLimit, Dot)
    }

    /** The default-credit-limit field's `onChange`; the payment terms stay. */
    method OnDefaultCreditLimitInput(text: string)
      modifies this
      ensures globalSettings == old(globalSettings).(defaultCreditLimit := ParseCurrency(text))
    {
      globalSettings := globalSettings.(defaultCreditLimit := ParseCurrency(text));
    }

    /** The payment-terms field's `onChange`, given the number the field holds; the credit limit stays. */
    method OnDefaultPaymentTermsInput(days: int)
      modifies this
      ensures globalSettings == old(globalSettings).(defaultPaymentTerms := days)
    {
      globalSettings := globalSettings.(defaultPaymentTerms := days);
    }
  }
}
