/**
 * The promotion management page: a sortable, paged table of promotions with
 * a status computed from the current time, and the product picker of the
 * add/edit promotion dialog.
 */
module PromotionPage {
  import opened Wrappers
  import opened Ordering
  import opened Sorting
  import opened TableView
  import opened ListOps

  /** A promotion; the dates are the "2024-06-01" texts of the mock data. */
  datatype Promotion = Promotion(
    id: int, name: string, startDate: string, endDate: string,
    discountType: string, discountValue: int, status: string, products: seq<int>)

  /** The columns with a sort button; `startDate` is also the initial one. */
  datatype PromotionField = Name | StartDate

  /** Dates sort as strings. */
  function KeyOf(f: PromotionField): Promotion -> Key
  {
    match f
    case Name => (p: Promotion) => Str(p.name)
    case StartDate => (p: Promotion) => Str(p.startDate)
  }

  datatype PromotionStatus = Scheduled | Active | Expired

  /**
   * `getPromotionStatus`, with the current time and the parsed start and end
   * dates given as timestamps: before the start it is scheduled, after the
   * end expired, otherwise active; the start test comes first.
   */
  function GetPromotionStatus(now: int, start: int, end: int): (s: PromotionStatus)
    ensures s == Scheduled <==> now < start
    ensures s == Expired <==> start <= now && now > end
    ensures s == Active <==> start <= now <= end
  {
    if now < start then Scheduled
    else if now > end then Expired
    else Active
  }

  /** A promotion that ends before it starts is never active. */
  lemma EndBeforeStartNeverActive(now: int, start: int, end: int)
    requires end < start
    ensures GetPromotionStatus(now, start, end) != Active
  {
  }

  function Phase(s: PromotionStatus): nat
  {
    match s
    case Scheduled => 0
    case Active => 1
    case Expired => 2
  }

  /** As time passes a promotion only moves forward: scheduled, active, expired. */
  lemma StatusMovesForward(now: int, later: int, start: int, end: int)
    requires now <= later
    ensures Phase(GetPromotionStatus(now, start, end)) <= Phase(GetPromotionStatus(later, start, end))
  {
  }

  class PromotionList {
    const promotions: seq<Promotion>
    const table: TableState<PromotionField>
    var isEditPromotionOpen: bool
    /** `selectedPromotion`, null as None. */
    var selectedPromotion: Option<Promotion>
    /** The ids ticked in the product picker. */
    var selectedProducts: seq<int>

    ghost predicate Valid()
      reads this, table
    {
      table.Valid()
    }

    /** The page as it first renders: sorted by start date ascending, page 1 of 10 rows, nothing picked. */
    constructor (promotions: seq<Promotion>)
      ensures this.promotions == promotions
      ensures fresh(table)
      ensures table.Sort() == SortSpec(StartDate, Asc)
      ensures table.currentPage == 1 && table.rowsPerPage == 10
      ensures !isEditPromotionOpen && selectedPromotion == None && selectedProducts == []
      ensures Valid()
    {
      this.promotions := promotions;
      table := new TableState(StartDate, Asc);
      isEditPromotionOpen := false;
      selectedPromotion := None;
      selectedProducts := [];
    }

    /** `handleSort`: a newly chosen column starts ascending. */
    method HandleSort(f: PromotionField)
      modifies table
      ensures table.Sort() == ToggleSort(old(table.Sort()), f, Asc)
      ensures table.currentPage == old(table.currentPage)
      ensures table.rowsPerPage == old(table.rowsPerPage)
    {
      table.HandleSort(f, Asc);
    }

    /** `sortedAndPaginatedData`: the current page of the promotions sorted by the current column. */
    method SortedAndPaginatedData() returns (rows: seq<Promotion>)
      ensures rows == Visible(promotions, KeyOf(table.sortField), table.sortDirection,
                              table.currentPage, table.rowsPerPage)
    {
      rows := SortedAndPaginated(promotions, KeyOf(table.sortField), table.sortDirection,
                                 table.currentPage, table.rowsPerPage);
    }

    /** `handleProductSelection(id)`: a ticked id loses every copy, an unticked one is appended. */
    method HandleProductSelection(id: int)
      modifies this
      ensures selectedProducts == Toggle(old(selectedProducts), id)
      ensures selectedPromotion == old(selectedPromotion) && isEditPromotionOpen == old(isEditPromotionOpen)
    {
      if id in selectedProducts {
        selectedProducts := RemoveAll(selectedProducts, id);
      } else {
        selectedProducts := selectedProducts + [id];
      }
    }

    /** The edit button: the promotion is selected, its products are ticked, the dialog opens. */
    method OpenEdit(p: Promotion)
      modifies this
      ensures selectedPromotion == Some(p) && selectedProducts == p.products && isEditPromotionOpen
    {
      selectedPromotion := Some(p);
      selectedProducts := p.products;
      isEditPromotionOpen := true;
    }
  }
}
