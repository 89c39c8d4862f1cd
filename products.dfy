/**
 * The product list page: a sortable, paged table of products, and the
 * add/edit product dialog with its image manager (upload, remove, alt text,
 * thumbnail).
 */
module ProductsPage {
  import opened Wrappers
  import opened Ordering
  import opened Sorting
  import opened TableView
  import opened Currency
  import opened ListOps

  /** `DEFAULT_TAX_RATE`, in percent. */
  const DefaultTaxRate: real := 11.0

  datatype Product = Product(
    id: int, name: string, price: nat, images: seq<string>, thumbnailIndex: int,
    isAvailable: bool, isFoC: bool)

  /** The columns with a sort button. */
  datatype ProductField = Name | Price

  function KeyOf(f: ProductField): Product -> Key
  {
    match f
    case Name => (p: Product) => Str(p.name)
    case Price => (p: Product) => Num(p.price)
  }

  /** A file the browser handed over; only its identity matters here. */
  datatype FileRef = FileRef(name: string)

  /**
   * One `{file, preview, alt}` entry of `uploadedImages`. The entry is an
   * object: `handleAltChange` writes its `alt` in place.
   */
  class UploadedImage {
    const file: FileRef
    /** The object URL made for the file. */
    const preview: string
    var alt: string

    constructor (file: FileRef, preview: string)
      ensures this.file == file && this.preview == preview && alt == ""
    {
      this.file := file;
      this.preview := preview;
      alt := "";
    }
  }

  /** What an image entry holds at a given moment. */
  datatype ImageEntry = ImageEntry(file: FileRef, preview: string, alt: string)

  /** The value of each entry of an image list. */
  ghost function Entries(images: seq<UploadedImage>): (r: seq<ImageEntry>)
    reads set k | 0 <= k < |images| :: images[k]
    ensures |r| == |images|
  {
    if |images| == 0 then []
    else Entries(images[..|images| - 1]) + [ImageEntry(images[|images| - 1].file,
                                                        images[|images| - 1].preview,
                                                        images[|images| - 1].alt)]
  }

  /** Each entry holds the current file, preview and alt of its object. */
  lemma {:induction false} EntryAt(images: seq<UploadedImage>, k: int)
    requires 0 <= k < |images|
    ensures Entries(images)[k] == ImageEntry(images[k].file, images[k].preview, images[k].alt)
  {
    if k < |images| - 1 {
      EntryAt(images[..|images| - 1], k);
    }
  }

  /** Entries for newly uploaded files: each file with its preview, no alt text yet. */
  function NewEntries(files: seq<FileRef>, previews: seq<string>): (r: seq<ImageEntry>)
    requires |previews| == |files|
    ensures |r| == |files|
    ensures forall k :: 0 <= k < |files| ==> r[k] == ImageEntry(files[k], previews[k], "")
  {
    if |files| == 0 then []
    else NewEntries(files[..|files| - 1], previews[..|files| - 1])
         + [ImageEntry(files[|files| - 1], previews[|files| - 1], "")]
  }

  /** Distinct objects in two lists that share none stay distinct when joined. */
  lemma DistinctAppend(a: seq<UploadedImage>, b: seq<UploadedImage>)
    requires forall i, j :: 0 <= i < j < |a| ==> a[i] != a[j]
    requires forall i, j :: 0 <= i < j < |b| ==> b[i] != b[j]
    requires forall i, j :: 0 <= i < |a| && 0 <= j < |b| ==> a[i] != b[j]
    ensures forall i, j :: 0 <= i < j < |a + b| ==> (a + b)[i] != (a + b)[j]
  {
    forall i, j | 0 <= i < j < |a + b|
      ensures (a + b)[i] != (a + b)[j]
    {
      if j >= |a| {
        assert (a + b)[j] == b[j - |a|];
      }
    }
  }

  /** The entries of two lists one after the other. */
  lemma EntriesAppend(a: seq<UploadedImage>, b: seq<UploadedImage>)
    ensures Entries(a + b) == Entries(a) + Entries(b)
  {
    assert |Entries(a + b)| == |Entries(a) + Entries(b)|;
    forall k | 0 <= k < |a + b|
      ensures Entries(a + b)[k] == (Entries(a) + Entries(b))[k]
    {
      EntryAt(a + b, k);
      if k >= |a| {
        assert (a + b)[k] == b[k - |a|];
        EntryAt(b, k - |a|);
      } else {
        EntryAt(a, k);
      }
    }
  }

  /**
   * The `files.map(...)` of the upload handler: one new entry object per
   * file, in file order, each with its object URL and an empty alt.
   */
  method MakeImages(files: seq<FileRef>, previews: seq<string>) returns (added: seq<UploadedImage>)
    requires |previews| == |files|
    ensures |added| == |files|
    ensures forall k :: 0 <= k < |added| ==> fresh(added[k])
    ensures forall k, l :: 0 <= k < l < |added| ==> added[k] != added[l]
    ensures Entries(added) == NewEntries(files, previews)
  {
    added := [];
    var i := 0;
    while i < |files|
      invariant 0 <= i <= |files| && |added| == i
      invariant forall k :: 0 <= k < i ==> fresh(added[k])
      invariant forall k :: 0 <= k < i ==>
                  added[k].file == files[k] && added[k].preview == previews[k] && added[k].alt == ""
      invariant forall k, l :: 0 <= k < l < i ==> added[k] != added[l]
    {
      var image := new UploadedImage(files[i], previews[i]);
      added := added + [image];
      i := i + 1;
    }
    forall k | 0 <= k < |added|
      ensures Entries(added)[k] == NewEntries(files, previews)[k]
    {
      EntryAt(added, k);
    }
  }

  /** The page's own `useState` values, as one record; the table's sort and paging are apart. */
  datatype PageState = PageState(isAddProductOpen: bool, isEditProductOpen: bool,
                                 selectedProduct: Option<Product>, uploadedImages: seq<UploadedImage>,
                                 activeTab: string, taxRate: real)

  class ProductList {
    const products: seq<Product>
    const table: TableState<ProductField>
    var isAddProductOpen: bool
    var isEditProductOpen: bool
    /** `selectedProduct`, null as None. */
    var selectedProduct: Option<Product>
    var uploadedImages: seq<UploadedImage>
    var activeTab: string
    /** `globalSettings.taxRate`, in percent; the input steps by 0.1. */
    var taxRate: real

    /** The entries are distinct objects, so editing one leaves the others alone. */
    ghost predicate Valid()
      reads this, table
    {
      && table.Valid()
      && (forall i, j :: 0 <= i < j < |uploadedImages| ==> uploadedImages[i] != uploadedImages[j])
    }

    ghost function State(): PageState
      reads this
    {
      PageState(isAddProductOpen, isEditProductOpen, selectedProduct, uploadedImages, activeTab, taxRate)
    }

    /** The value of the image list. */
    ghost function Images(): seq<ImageEntry>
      reads this, set k | 0 <= k < |uploadedImages| :: uploadedImages[k]
    {
      Entries(uploadedImages)
    }

    /** The page as it first renders. */
    constructor (products: seq<Product>)
      ensures this.products == products
      ensures fresh(table)
      ensures table.Sort() == SortSpec(Name, Asc)
      ensures table.currentPage == 1 && table.rowsPerPage == 10
      ensures !isAddProductOpen && !isEditProductOpen && selectedProduct == None
      ensures uploadedImages == [] && activeTab == "details" && taxRate == 11.0
      ensures Valid()
    {
      this.products := products;
      table := new TableState(Name, Asc);
      isAddProductOpen, isEditProductOpen := false, false;
      selectedProduct := None;
      uploadedImages := [];
      activeTab := "details";
      taxRate := DefaultTaxRate;
    }

    /** `handleSort`: a newly chosen column starts ascending. */
    method HandleSort(f: ProductField)
      modifies table
      ensures table.Sort() == ToggleSort(old(table.Sort()), f, Asc)
      ensures table.currentPage == old(table.currentPage)
      ensures table.rowsPerPage == old(table.rowsPerPage)
    {
      table.HandleSort(f, Asc);
    }

    /** `sortedAndPaginatedData`: the current page of the products sorted by the current column. */
    method SortedAndPaginatedData() returns (rows: seq<Product>)
      ensures rows == Visible(products, KeyOf(table.sortField), table.sortDirection,
                              table.currentPage, table.rowsPerPage)
    {
      rows := SortedAndPaginated(products, KeyOf(table.sortField), table.sortDirection,
                                 table.currentPage, table.rowsPerPage);
    }

    /** Puts entry objects that are not in the list yet after the existing ones. */
    method AppendImages(added: seq<UploadedImage>)
      requires Valid()
      requires forall k, l :: 0 <= k < l < |added| ==> added[k] != added[l]
      requires forall k, l :: 0 <= k < |uploadedImages| && 0 <= l < |added| ==> uploadedImages[k] != added[l]
      modifies this
      ensures Valid()
      ensures uploadedImages == old(uploadedImages) + added
      ensures Images() == old(Images()) + Entries(added)
      ensures State() == old(State()).(uploadedImages := uploadedImages)
    {
      DistinctAppend(uploadedImages, added);
      EntriesAppend(uploadedImages, added);
      uploadedImages := uploadedImages + added;
    }

    /**
     * `handleImageUpload`: one new entry per chosen file, in file order, with
     * the object URL made for it and an empty alt, after the existing ones.
     */
    method HandleImageUpload(files: seq<FileRef>, previews: seq<string>)
      requires Valid() && |previews| == |files|
      modifies this
      ensures Valid()
      ensures |uploadedImages| == |old(uploadedImages)| + |files|
      ensures uploadedImages[..|old(uploadedImages)|] == old(uploadedImages)
      ensures forall k :: |old(uploadedImages)| <= k < |uploadedImages| ==> fresh(uploadedImages[k])
      ensures Images() == old(Images()) + NewEntries(files, previews)
      ensures State() == old(State()).(uploadedImages := uploadedImages)
    {
      var added := MakeImages(files, previews);
      AppendImages(added);
      forall k | |old(uploadedImages)| <= k < |uploadedImages|
        ensures fresh(uploadedImages[k])
      {
        assert uploadedImages[k] == added[k - |old(uploadedImages)|];
      }
    }

    /**
     * `handleRemoveImage(index)`: the entry at index leaves the list, the
     * others keep their order. (Revoking its object URL is not modelled.)
     */
    method HandleRemoveImage(index: int)
      requires Valid() && 0 <= index < |uploadedImages|
      modifies this
      ensures Valid()
      ensures uploadedImages == old(uploadedImages[..index] + uploadedImages[index + 1..])
      ensures Images() == old(Images()[..index] + Images()[index + 1..])
      ensures State() == old(State()).(uploadedImages := uploadedImages)
    {
      ghost var before := Images();
      forall k | 0 <= k < |uploadedImages|
        ensures before[k] == ImageEntry(uploadedImages[k].file, uploadedImages[k].preview, uploadedImages[k].alt)
      {
        EntryAt(uploadedImages, k);
      }
      uploadedImages := uploadedImages[..index] + uploadedImages[index + 1..];
      forall k | 0 <= k < |uploadedImages|
        ensures Images()[k] == (before[..index] + before[index + 1..])[k]
      {
        EntryAt(uploadedImages, k);
      }
    }

    /**
     * `handleAltChange(index, alt)`: the list is copied, but the entry is
     * shared, so its alt is written in place; nothing else changes.
     */
    method HandleAltChange(index: int, alt: string)
      requires Valid() && 0 <= index < |uploadedImages|
      modifies uploadedImages[index]
      ensures Valid()
      ensures uploadedImages == old(uploadedImages)
      ensures Images() == old(Images()[index := Images()[index].(alt := alt)])
    {
      ghost var before := Images();
      forall k | 0 <= k < |uploadedImages|
        ensures before[k] == ImageEntry(uploadedImages[k].file, uploadedImages[k].preview, uploadedImages[k].alt)
      {
        EntryAt(uploadedImages, k);
      }
      uploadedImages[index].alt := alt;
      forall k | 0 <= k < |uploadedImages|
        ensures Images()[k] == before[index := before[index].(alt := alt)][k]
      {
        EntryAt(uploadedImages, k);
      }
    }

    /** `handleEditProduct(p)`: p is selected and the dialog opens on the images tab. */
    method HandleEditProduct(p: Product)
      modifies this
      ensures State() == old(State()).(selectedProduct := Some(p), isEditProductOpen := true, activeTab := "images")
    {
      selectedProduct := Some(p);
      isEditProductOpen := true;
      activeTab := "images";
    }

    /** `handleSetThumbnail(index)`: only the selected product's thumbnail index changes. */
    method HandleSetThumbnail(index: int)
      modifies this
      ensures State() == old(State()).(selectedProduct := SetThumbnail(old(selectedProduct), index))
    {
      if selectedProduct.Some? {
        selectedProduct := Some(selectedProduct.value.(thumbnailIndex := index));
      }
    }

    /**
     * The Cancel button under the add/edit form: both flags off and no
     * selection, but unlike closing the dialog it keeps the uploaded images
     * and the tab.
     */
    method Cancel()
      modifies this
      ensures State() == old(State()).(isAddProductOpen := false, isEditProductOpen := false,
                                       selectedProduct := None)
    {
      isAddProductOpen := false;
      isEditProductOpen := false;
      selectedProduct := None;
    }

    /** The tax-rate field's `onChange`: the settings copy with the rate `Number(value)`; nothing else changes. */
    method OnTaxRateInput(rate: real)
      modifies this
      ensures State() == old(State()).(taxRate := rate)
    {
      taxRate := rate;
    }

    /**
     * The dialog's `onOpenChange`: closing clears both flags and the
     * selection, empties the uploaded images and goes back to the details tab.
     */
    method OnDialogOpenChange(open: bool)
      modifies this
      ensures !open ==> State() == old(State()).(isAddProductOpen := false, isEditProductOpen := false,
                                                 selectedProduct := None, uploadedImages := [],
                                                 activeTab := "details")
      ensures open ==> State() == old(State())
    {
      if !open {
        isAddProductOpen := false;
        isEditProductOpen := false;
        selectedProduct := None;
        uploadedImages := [];
        activeTab := "details";
      }
    }
  }

  /** The thumbnail choice: nothing without a selection, otherwise only `thumbnailIndex` changes. */
  function SetThumbnail(selected: Option<Product>, index: int): (r: Option<Product>)
    ensures selected == None ==> r == None
    ensures selected != None ==> r != None && r.value.thumbnailIndex == index
    ensures selected != None ==> r.value.(thumbnailIndex := selected.value.thumbnailIndex) == selected.value
  {
    match selected
    case None => None
    case Some(p) => Some(p.(thumbnailIndex := index))
  }

  /** Prices show with `.` between the groups, and the dots come back out to the digits. */
  lemma PriceText(price: nat)
    ensures Filter(FormatCurrency(price, Dot), IsDigit) == Digits(price)
    ensures |FormatCurrency(price, Dot)| == |Digits(price)| + (|Digits(price)| - 1) / 3
    ensures FormatCurrency(price, Dot) == GroupByChunks(Digits(price), '.')
  {
    GroupShape(Digits(price), SepChar(Dot));
    GroupIsChunked(Digits(price), SepChar(Dot));
  }
}
