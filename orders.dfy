/**
 * The order management page: a sortable, paged table of orders, newest
 * first, and the add/edit order dialog.
 */
module OrdersPage {
  import opened Wrappers
  import opened Ordering
  import opened Sorting
  import opened TableView

  /** An order; `orderDate` is the ISO text of the mock data, e.g. "2024-03-10T08:30:00". */
  datatype Order = Order(id: string, customerName: string, orderDate: string, total: int, status: string)

  /** The initial sort column and the one with a sort button. */
  datatype OrderField = Id | OrderDate

  /** Order ids and dates compare as strings; a date is never parsed for sorting. */
  function KeyOf(f: OrderField): Order -> Key
  {
    match f
    case Id => (o: Order) => Str(o.id)
    case OrderDate => (o: Order) => Str(o.orderDate)
  }

  class OrderManagement {
    const orders: seq<Order>
    const table: TableState<OrderField>
    var isAddOrderOpen: bool
    var isEditOrderOpen: bool
    /** `selectedOrder`, null as None. */
    var selectedOrder: Option<Order>
    var showDeliveryOptions: bool

    ghost predicate Valid()
      reads this, table
    {
      table.Valid()
    }

    /** The page as it first renders: newest order first, page 1 of 10 rows, no dialog open. */
    constructor (orders: seq<Order>)
      ensures this.orders == orders
      ensures fresh(table)
      ensures table.Sort() == SortSpec(OrderDate, Desc)
      ensures table.currentPage == 1 && table.rowsPerPage == 10
      ensures !isAddOrderOpen && !isEditOrderOpen && selectedOrder == None && !showDeliveryOptions
      ensures Valid()
    {
      this.orders := orders;
      table := new TableState(OrderDate, Desc);
      isAddOrderOpen, isEditOrderOpen := false, false;
      selectedOrder := None;
      showDeliveryOptions := false;
    }

    /** `handleSort`: on this page a newly chosen column starts descending. */
    method HandleSort(f: OrderField)
      modifies table
      ensures table.Sort() == ToggleSort(old(table.Sort()), f, Desc)
      ensures table.currentPage == old(table.currentPage)
      ensures table.rowsPerPage == old(table.rowsPerPage)
    {
      table.HandleSort(f, Desc);
    }

    /** `sortedAndPaginatedData`: the current page of the orders sorted by the current column. */
    method SortedAndPaginatedData() returns (rows: seq<Order>)
      ensures rows == Visible(orders, KeyOf(table.sortField), table.sortDirection,
                              table.currentPage, table.rowsPerPage)
    {
      rows := SortedAndPaginated(orders, KeyOf(table.sortField), table.sortDirection,
                                 table.currentPage, table.rowsPerPage);
    }

    /** The add/edit dialog's `onOpenChange`: closing clears both flags, the selection and the delivery options. */
    method OnDialogOpenChange(open: bool)
      modifies this
      ensures !open ==> !isAddOrderOpen && !isEditOrderOpen && selectedOrder == None && !showDeliveryOptions
      ensures open ==> isAddOrderOpen == old(isAddOrderOpen) && isEditOrderOpen == old(isEditOrderOpen)
                       && selectedOrder == old(selectedOrder) && showDeliveryOptions == old(showDeliveryOptions)
    {
      if !open {
        isAddOrderOpen := false;
        isEditOrderOpen := false;
        selectedOrder := None;
        showDeliveryOptions := false;
      }
    }

    /**
     * The form's Cancel button: both flags off and no selection; unlike
     * closing the dialog it leaves the delivery options as they were.
     */
    method Cancel()
      modifies this
      ensures !isAddOrderOpen && !isEditOrderOpen && selectedOrder == None
      ensures showDeliveryOptions == old(showDeliveryOptions)
    {
      isAddOrderOpen := false;
      isEditOrderOpen := false;
      selectedOrder := None;
    }
  }

  /**
   * With the initial descending sort on dates, consecutive rows have
   * non-increasing dates as strings and rows with the same date keep their
   * order in the list.
   */
  lemma NewestFirst(orders: seq<Order>, i: int, j: int)
    requires 0 <= i < j < |orders|
    ensures var sorted := StableSort(KeyOf(OrderDate), Desc, orders);
      && |sorted| == |orders|
      && !LexLess(sorted[i].orderDate, sorted[j].orderDate)
      && Stable(KeyOf(OrderDate), orders, sorted)
  {
    SortPermutation(KeyOf(OrderDate), Desc, orders);
    SortStable(KeyOf(OrderDate), Desc, orders);
    SortOrdered(KeyOf(OrderDate), Desc, orders);
    OrderedMeansMonotoneKeys(KeyOf(OrderDate), Desc, StableSort(KeyOf(OrderDate), Desc, orders), i, j);
  }
}
