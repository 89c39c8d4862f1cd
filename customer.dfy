/**
 * The customer list page: a sortable, paged table of customers and the
 * "Add customer" form whose credit-limit field shows the amount as
 * "Rp 1,000,000" and reads back whatever is typed.
 */
module CustomerPage {
  import opened Wrappers
  import opened Ordering
  import opened Sorting
  import opened TableView
  import opened Currency

  datatype Customer = Customer(
    id: int, name: string, email: string, creditLimit: int,
    paymentTerms: int, status: string, promoNotes: string)

  /** The columns with a sort button. */
  datatype CustomerField = Name | Email | CreditLimit | PaymentTerms | Status | PromoNotes

  /** `a[sortField]`: strings compare as strings, numbers as numbers. */
  function KeyOf(f: CustomerField): Customer -> Key
  {
    match f
    case Name => (c: Customer) => Str(c.name)
    case Email => (c: Customer) => Str(c.email)
    case CreditLimit => (c: Customer) => Num(c.creditLimit)
    case PaymentTerms => (c: Customer) => Num(c.paymentTerms)
    case Status => (c: Customer) => Str(c.status)
    case PromoNotes => (c: Customer) => Str(c.promoNotes)
  }

  class CustomerList {
    const customers: seq<Customer>
    const table: TableState<CustomerField>
    /** `newCustomer.creditLimit`; None stands for NaN. */
    var newCreditLimit: Option<nat>

    ghost predicate Valid()
      reads this, table
    {
      table.Valid()
    }

    /** The page as it first renders: sorted by name ascending, page 1 of 10 rows, credit limit 0. */
    constructor (customers: seq<Customer>)
      ensures this.customers == customers
      ensures fresh(table)
      ensures table.Sort() == SortSpec(Name, Asc)
      ensures table.currentPage == 1 && table.rowsPerPage == 10
      ensures newCreditLimit == Some(0)
      ensures Valid()
    {
      this.customers := customers;
      table := new TableState(Name, Asc);
      newCreditLimit := Some(0);
    }

    /** `handleSort`: a newly chosen column starts ascending. */
    method HandleSort(f: CustomerField)
      modifies table
      ensures table.Sort() == ToggleSort(old(table.Sort()), f, Asc)
      ensures table.currentPage == old(table.currentPage)
      ensures table.rowsPerPage == old(table.rowsPerPage)
    {
      table.HandleSort(f, Asc);
    }

    /** `sortedAndPaginatedData`: the current page of the customers sorted by the current column. */
    method SortedAndPaginatedData() returns (rows: seq<Customer>)
      ensures rows == Visible(customers, KeyOf(table.sortField), table.sortDirection,
                              table.currentPage, table.rowsPerPage)
    {
      rows := SortedAndPaginated(customers, KeyOf(table.sortField), table.sortDirection,
                                 table.currentPage, table.rowsPerPage);
    }

    /** The text the credit-limit field shows. */
    function CreditLimitText(): (text: string)
      reads this
      ensures ParseCurrency(text) == newCreditLimit
    {
      AmountRoundTrip(newCreditLimit, Comma);
      "Rp " + FormatAmount(newCreditLimit, Comma)
    }

    /** The credit-limit field's `onChange`: the amount becomes whatever the text reads as. */
    method OnCreditLimitInput(text: string)
      modifies this
      ensures newCreditLimit == ParseCurrency(text)
      ensures CreditLimitText() == "Rp " + FormatAmount(ParseCurrency(text), Comma)
    {
      newCreditLimit := ParseCurrency(text);
    }
  }
}
