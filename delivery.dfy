/**
 * The delivery management page: deliveries filtered by a status tab, sorted
 * and paged; the add/edit delivery dialog with its orders grouped by
 * customer and their checkboxes; and the list of managed delivery areas.
 */
module DeliveryPage {
  import opened Wrappers
  import opened Ordering
  import opened Sorting
  import opened Paging
  import opened TableView
  import opened ListOps
  import opened Text

  /** A delivery batch; `status` is "Pending", "In Progress" or "Delivered" in the mock data. */
  datatype Delivery = Delivery(
    id: int, batchId: string, orders: seq<string>, coordinator: string,
    area: string, status: string, plannedDate: string)

  datatype Order = Order(id: string, customerName: string, orderDate: string, total: int, status: string)

  /** The initial sort column and the one with a sort button. */
  datatype DeliveryField = PlannedDate | BatchId

  function KeyOf(f: DeliveryField): Delivery -> Key
  {
    match f
    case PlannedDate => (d: Delivery) => Str(d.plannedDate)
    case BatchId => (d: Delivery) => Str(d.batchId)
  }

  /** Whether a delivery shows under a tab ("all", "pending", "in progress", "delivered"). */
  predicate InTab(tab: string, d: Delivery)
  {
    tab == "all" || ToLower(d.status) == tab
  }

  /**
   * `filteredDeliveries`: under "all" every delivery, otherwise exactly those
   * whose lower-cased status is the tab, in list order.
   */
  function FilteredDeliveries(deliveries: seq<Delivery>, tab: string): (r: seq<Delivery>)
    ensures tab == "all" ==> r == deliveries
    ensures forall d :: d in r <==> d in deliveries && (tab == "all" || ToLower(d.status) == tab)
  {
    if tab == "all" then FilterAll(deliveries, d => InTab(tab, d)); Filter(deliveries, d => InTab(tab, d))
    else Filter(deliveries, d => InTab(tab, d))
  }

  /** The orders of one customer, in list order. */
  ghost function OrdersOf(orders: seq<Order>, name: string): (r: seq<Order>)
    ensures forall o :: o in r ==> o in orders && o.customerName == name
    ensures forall o :: o in orders && o.customerName == name ==> o in r
  {
    if |orders| == 0 then []
    else
      var last := orders[|orders| - 1];
      var front := orders[..|orders| - 1];
      assert orders == front + [last];
      OrdersOf(front, name) + (if last.customerName == name then [last] else [])
  }

  /** The customer names in the order they first appear. */
  ghost function CustomerNames(orders: seq<Order>): (r: seq<string>)
    ensures forall i, j :: 0 <= i < j < |r| ==> r[i] != r[j]
    ensures forall n :: n in r <==> exists o :: o in orders && o.customerName == n
  {
    if |orders| == 0 then []
    else
      var last := orders[|orders| - 1];
      var front := orders[..|orders| - 1];
      assert orders == front + [last];
      var names := CustomerNames(front);
      if last.customerName in names then names else names + [last.customerName]
  }

  /**
   * `groupedOrders`: one list per customer name, filled by a pass over the
   * orders that creates a customer's list at its first order and pushes
   * each order onto its customer's list. The names come back in the order
   * they were first seen, which is the order of the object's keys.
   */
  method GroupOrders(orders: seq<Order>) returns (groups: map<string, seq<Order>>, names: seq<string>)
    ensures names == CustomerNames(orders)
    ensures forall n :: n in groups <==> n in names
    ensures forall n :: n in groups ==> groups[n] == OrdersOf(orders, n)
  {
    groups := map[];
    names := [];
    for i := 0 to |orders|
      invariant names == CustomerNames(orders[..i])
      invariant forall n :: n in groups <==> n in names
      invariant forall n :: n in groups ==> groups[n] == OrdersOf(orders[..i], n)
    {
      var order := orders[i];
      ghost var before, namesBefore := groups, names;
      if order.customerName !in groups {
        groups := groups[order.customerName := []];
        names := names + [order.customerName];
      }
      groups := groups[order.customerName := groups[order.customerName] + [order]];
      GroupStep(orders[..i], order, before, namesBefore, groups, names);
      PrefixStep(orders, i);
    }
    assert orders[..|orders|] == orders;
  }

  lemma PrefixStep<T>(xs: seq<T>, i: int)
    requires 0 <= i < |xs|
    ensures xs[..i + 1] == xs[..i] + [xs[i]]
  {
  }

  /** One pass of the grouping loop keeps the groups and names of the orders seen so far. */
  lemma GroupStep(seen: seq<Order>, order: Order, groups: map<string, seq<Order>>, names: seq<string>,
                  groups': map<string, seq<Order>>, names': seq<string>)
    requires names == CustomerNames(seen)
    requires forall n :: n in groups <==> n in names
    requires forall n :: n in groups ==> groups[n] == OrdersOf(seen, n)
    requires groups' == groups[order.customerName :=
               (if order.customerName in groups then groups[order.customerName] else []) + [order]]
    requires names' == if order.customerName in groups then names else names + [order.customerName]
    ensures names' == CustomerNames(seen + [order])
    ensures forall n :: n in groups' <==> n in names'
    ensures forall n :: n in groups' ==> groups'[n] == OrdersOf(seen + [order], n)
  {
    NamesStep(seen, order);
    if order.customerName !in groups {
      AbsentNameHasNoOrders(seen, order.customerName);
    }
    forall n | n in groups'
      ensures groups'[n] == OrdersOf(seen + [order], n)
    {
      OrdersOfStep(seen, order, n);
    }
  }

  lemma OrdersOfStep(seen: seq<Order>, order: Order, n: string)
    ensures OrdersOf(seen + [order], n) == OrdersOf(seen, n) + (if order.customerName == n then [order] else [])
  {
    assert (seen + [order])[..|seen|] == seen;
  }

  lemma NamesStep(seen: seq<Order>, order: Order)
    ensures CustomerNames(seen + [order])
            == if order.customerName in CustomerNames(seen) then CustomerNames(seen)
               else CustomerNames(seen) + [order.customerName]
  {
    assert (seen + [order])[..|seen|] == seen;
  }

  lemma AbsentNameHasNoOrders(seen: seq<Order>, n: string)
    requires n !in CustomerNames(seen)
    ensures OrdersOf(seen, n) == []
  {
    var r := OrdersOf(seen, n);
    assert forall o :: o !in r;
  }

  /** Each order is in its own customer's group and in no other. */
  lemma EachOrderInOneGroup(orders: seq<Order>, k: int, n: string)
    requires 0 <= k < |orders|
    ensures orders[k].customerName in CustomerNames(orders)
    ensures orders[k] in OrdersOf(orders, orders[k].customerName)
    ensures n != orders[k].customerName ==> orders[k] !in OrdersOf(orders, n)
  {
    assert orders[k] in orders;
  }

  /** The page's own `useState` values, as one record; the table's sort and paging are apart. */
  datatype PageState = PageState(activeTab: string, isAddDeliveryOpen: bool, isEditDeliveryOpen: bool,
                                 selectedDelivery: Option<Delivery>, selectedOrders: seq<string>,
                                 newArea: string, managedAreas: seq<string>)

  /** What closing the add/edit dialog leaves: both flags off, no selection, no ticked orders. */
  function Closed(s: PageState): (r: PageState)
    ensures !r.isAddDeliveryOpen && !r.isEditDeliveryOpen && r.selectedDelivery == None && r.selectedOrders == []
    ensures r.activeTab == s.activeTab && r.newArea == s.newArea && r.managedAreas == s.managedAreas
  {
    s.(isAddDeliveryOpen := false, isEditDeliveryOpen := false, selectedDelivery := None, selectedOrders := [])
  }

  class DeliveryManagement {
    const deliveries: seq<Delivery>
    const orders: seq<Order>
    const table: TableState<DeliveryField>
    var activeTab: string
    var isAddDeliveryOpen: bool
    var isEditDeliveryOpen: bool
    /** `selectedDelivery`, null as None. */
    var selectedDelivery: Option<Delivery>
    /** The ids of the ticked orders. */
    var selectedOrders: seq<string>
    /** The text of the "Add new area..." field. */
    var newArea: string
    var managedAreas: seq<string>

    ghost predicate Valid()
      reads this, table
    {
      table.Valid()
    }

    ghost function State(): PageState
      reads this
    {
      PageState(activeTab, isAddDeliveryOpen, isEditDeliveryOpen, selectedDelivery, selectedOrders,
                newArea, managedAreas)
    }

    /** The page as it first renders: the pending tab, sorted by planned date ascending, page 1 of 10 rows. */
    constructor (deliveries: seq<Delivery>, orders: seq<Order>, areas: seq<string>)
      ensures this.deliveries == deliveries && this.orders == orders
      ensures fresh(table)
      ensures table.Sort() == SortSpec(PlannedDate, Asc)
      ensures table.currentPage == 1 && table.rowsPerPage == 10
      ensures activeTab == "pending" && !isAddDeliveryOpen && !isEditDeliveryOpen
      ensures selectedDelivery == None && selectedOrders == []
      ensures newArea == "" && managedAreas == areas
      ensures Valid()
    {
      this.deliveries := deliveries;
      this.orders := orders;
      table := new TableState(PlannedDate, Asc);
      activeTab := "pending";
      isAddDeliveryOpen, isEditDeliveryOpen := false, false;
      selectedDelivery := None;
      selectedOrders := [];
      newArea := "";
      managedAreas := areas;
    }

    /** `handleSort`: a newly chosen column starts ascending. */
    method HandleSort(f: DeliveryField)
      modifies table
      ensures table.Sort() == ToggleSort(old(table.Sort()), f, Asc)
      ensures table.currentPage == old(table.currentPage)
      ensures table.rowsPerPage == old(table.rowsPerPage)
    {
      table.HandleSort(f, Asc);
    }

    /** A tab button: only the tab changes; the current page is not reset. */
    method SetActiveTab(tab: string)
      modifies this
      ensures State() == old(State()).(activeTab := tab)
    {
      activeTab := tab;
    }

    /** `sortedAndPaginatedData`: the current page of the deliveries under the tab, sorted by the current column. */
    method SortedAndPaginatedData() returns (rows: seq<Delivery>)
      ensures rows == Visible(FilteredDeliveries(deliveries, activeTab), KeyOf(table.sortField),
                              table.sortDirection, table.currentPage, table.rowsPerPage)
    {
      var filtered := FilteredDeliveries(deliveries, activeTab);
      rows := SortedAndPaginated(filtered, KeyOf(table.sortField), table.sortDirection,
                                 table.currentPage, table.rowsPerPage);
    }

    /** The new-area field's `onChange`. */
    method OnNewAreaInput(text: string)
      modifies this
      ensures State() == old(State()).(newArea := text)
    {
      newArea := text;
    }

    /**
     * The add-area button: a text that trims to nothing changes nothing;
     * otherwise the trimmed text goes at the end and the field is cleared.
     */
    method AddArea()
      modifies this
      ensures Trim(old(newArea)) == [] ==> State() == old(State())
      ensures Trim(old(newArea)) != [] ==>
                State() == old(State()).(managedAreas := old(managedAreas) + [Trim(old(newArea))], newArea := "")
    {
      var trimmed := Trim(newArea);
      if trimmed != [] {
        managedAreas := managedAreas + [trimmed];
        newArea := "";
      }
    }

    /** An area's remove button: `managedAreas.filter((_, i) => i !== index)`. */
    method RemoveArea(index: int)
      modifies this
      ensures State() == old(State()).(managedAreas := RemoveAt(old(managedAreas), index))
    {
      managedAreas := RemoveAt(managedAreas, index);
    }

    /** An order checkbox's `onCheckedChange`: ticking appends the id, unticking removes every copy of it. */
    method OnOrderChecked(id: string, checked: bool)
      modifies this
      ensures State() == old(State()).(selectedOrders := SetChecked(old(selectedOrders), id, checked))
    {
      if checked {
        selectedOrders := selectedOrders + [id];
      } else {
        selectedOrders := RemoveAll(selectedOrders, id);
      }
    }

    /** The add/edit dialog's `onOpenChange`: closing clears both flags, the selection and the ticked orders. */
    method OnDialogOpenChange(open: bool)
      modifies this
      ensures !open ==> State() == Closed(old(State()))
      ensures open ==> State() == old(State())
    {
      if !open {
        isAddDeliveryOpen := false;
        isEditDeliveryOpen := false;
        selectedDelivery := None;
        selectedOrders := [];
      }
    }

    /** The dialog's Cancel button: the same four assignments as closing it. */
    method Cancel()
      modifies this
      ensures State() == Closed(old(State()))
    {
      OnDialogOpenChange(false);
    }
  }

  /**
   * Paging and `totalPages` count the deliveries under the tab; since a tab
   * switch keeps the page, a page past the new tab's last one shows nothing.
   */
  lemma StalePageShowsNothing(deliveries: seq<Delivery>, tab: string, f: DeliveryField, dir: Direction,
                              page: int, rows: int)
    requires RowsPerPageOption(rows)
    requires page > TotalPages(|FilteredDeliveries(deliveries, tab)|, rows)
    ensures Visible(FilteredDeliveries(deliveries, tab), KeyOf(f), dir, page, rows) == []
  {
    var filtered := FilteredDeliveries(deliveries, tab);
    SortPermutation(KeyOf(f), dir, filtered);
    PastTheDataIsEmpty(StableSort(KeyOf(f), dir, filtered), page, rows);
  }
}
