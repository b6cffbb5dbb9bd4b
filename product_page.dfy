/**
 * The product page (`ProductPage`): the category dialog (a radio list of categories, the chosen
 * one in `selectedCategory`, a save that patches the product's `category_id`) and two cell
 * helpers of its grid, the stock-status label and the customization badges.
 */
module ProductPage {
  import opened Wrappers
  import opened Text
  import opened Pages

  // ---------------------------------------------------------------- grid cells

  /** `s.replace(c, d)` with a one-character pattern: only the first occurrence is replaced. */
  function ReplaceFirst(s: string, c: char, d: char): (r: string)
    ensures |r| == |s|
    ensures forall k :: 0 <= k < |s| ==> r[k] == if k == IndexOf(s, c) then d else s[k]
    ensures c !in s ==> r == s
  {
    var i := IndexOf(s, c);
    if i == |s| then s else s[..i] + [d] + s[i + 1..]
  }

  /** The status cell's text: `status.replace('_', ' ').toUpperCase()`. */
  function StatusLabel(status: string): (r: string)
    ensures |r| == |status|
  {
    ToUpper(ReplaceFirst(status, '_', ' '))
  }

  /**
   * The label is the uppercased status except at its first underscore, which is a space; a
   * later underscore survives.
   */
  lemma StatusLabelChars(status: string, k: nat)
    requires k < |status|
    ensures k == IndexOf(status, '_') ==> StatusLabel(status)[k] == ' '
    ensures k < IndexOf(status, '_') ==> StatusLabel(status)[k] == UpperChar(status[k]) && status[k] != '_'
    ensures k > IndexOf(status, '_') ==> StatusLabel(status)[k] == UpperChar(status[k])
    ensures k > IndexOf(status, '_') && status[k] == '_' ==> StatusLabel(status)[k] == '_'
  {
  }

  /** "out_of_stock" is shown as "OUT OF_STOCK": the second underscore stays. */
  lemma StatusLabelOutOfStock()
    ensures StatusLabel("out_of_stock") == "OUT OF_STOCK"
  {
    OutOfStockSpaced();
    OutOfStockUpper();
  }

  lemma OutOfStockUpper()
    ensures ToUpper("out of_stock") == "OUT OF_STOCK"
  {
    var u := "out of_stock";
    assert forall k :: 0 <= k < |u| ==> UpperChar(u[k]) == "OUT OF_STOCK"[k];
  }

  lemma OutOfStockSpaced()
    ensures ReplaceFirst("out_of_stock", '_', ' ') == "out of_stock"
  {
    var s, u := "out_of_stock", "out of_stock";
    assert IndexOf(s, '_') == 3 by {
      assert s[0] != '_' && s[1] != '_' && s[2] != '_' && s[3] == '_';
    }
    assert forall k :: 0 <= k < |s| ==> (if k == 3 then ' ' else s[k]) == u[k];
  }

  /** "in_stock" is shown as "IN STOCK". */
  lemma StatusLabelInStock()
    ensures StatusLabel("in_stock") == "IN STOCK"
  {
    var s := "in_stock";
    assert IndexOf(s, '_') == 2 by {
      assert s[0] != '_' && s[1] != '_' && s[2] == '_';
    }
    var r := StatusLabel(s);
    assert forall k :: 0 <= k < |s| ==> r[k] == "IN STOCK"[k];
  }

  /** The colour class of the status cell. */
  function StatusClass(status: string): string {
    if status == "in_stock" then "text-success" else "text-danger"
  }

  /** The icon of the status cell. */
  function StatusIcon(status: string): string {
    if status == "in_stock" then "fa-check-circle" else "fa-times-circle"
  }

  /**
   * The colour and the icon of a status cell never disagree: the cell is styled as a success
   * with the check icon, or as a failure with the cross icon, and success is "in_stock" only,
   * whatever label the status shows.
   */
  lemma StatusStylingAgrees(status: string)
    ensures StatusClass(status) == "text-success" <==> StatusIcon(status) == "fa-check-circle"
    ensures StatusClass(status) == "text-success" <==> status == "in_stock"
    ensures StatusClass(status) in {"text-success", "text-danger"}
    ensures StatusIcon(status) in {"fa-check-circle", "fa-times-circle"}
  {
  }

  /** `key.charAt(0).toUpperCase() + key.slice(1)`; the empty key stays empty. */
  function Capitalize(key: string): string {
    if key == [] then [] else [UpperChar(key[0])] + key[1..]
  }

  /**
   * Capitalizing keeps the length and every character after the first, and a capitalized key
   * is left as it is: a key that is already capitalized shows unchanged on its badge.
   */
  lemma CapitalizeIdempotent(key: string)
    ensures |Capitalize(key)| == |key|
    ensures forall i :: 1 <= i < |key| ==> Capitalize(key)[i] == key[i]
    ensures Capitalize(Capitalize(key)) == Capitalize(key)
    ensures key != [] && !('a' <= key[0] <= 'z') ==> Capitalize(key) == key
  {
    if key != [] {
      var c := Capitalize(key);
      assert c[0] == UpperChar(key[0]);
      assert UpperChar(UpperChar(key[0])) == UpperChar(key[0]);
      assert c[1..] == key[1..];
      if !('a' <= key[0] <= 'z') {
        assert key == [key[0]] + key[1..];
      }
    }
  }

  /** One entry of `Object.entries(customization_options)`: the key and whether its value is truthy. */
  datatype CustomOption = CustomOption(key: string, enabled: bool)

  /** The badge labels of the options, in entry order: one per truthy value. */
  function BadgeLabels(options: seq<CustomOption>): (r: seq<string>)
    ensures |r| <= |options|
  {
    if options == [] then []
    else
      var init := BadgeLabels(options[..|options| - 1]);
      var last := options[|options| - 1];
      if last.enabled then init + [Capitalize(last.key)] else init
  }

  /** A label is shown exactly when some truthy option has it as its capitalized key. */
  lemma {:induction false} BadgeLabelsIff(options: seq<CustomOption>, text: string)
    ensures text in BadgeLabels(options) <==>
              exists k :: 0 <= k < |options| && options[k].enabled && Capitalize(options[k].key) == text
  {
    if options != [] {
      var init := options[..|options| - 1];
      BadgeLabelsIff(init, text);
      assert forall k :: 0 <= k < |init| ==> init[k] == options[k];
    }
  }

  /**
   * The customization cell: `Object.entries(options || {})` appending a badge for each truthy
   * value. A missing options object shows no badge.
   */
  method RenderBadges(options: Option<seq<CustomOption>>) returns (badges: seq<string>)
    ensures options.None? ==> badges == []
    ensures options.Some? ==> badges == BadgeLabels(options.value)
  {
    var entries := if options.Some? then options.value else [];
    badges := [];
    for i := 0 to |entries|
      invariant badges == BadgeLabels(entries[..i])
    {
      assert entries[..i + 1][..i] == entries[..i];
      if entries[i].enabled {
        badges := badges + [Capitalize(entries[i].key)];
      }
    }
    assert entries[..|entries|] == entries;
  }

  // ---------------------------------------------------------------- category dialog

  /** `{ id, name }` read from the button that opened the dialog. */
  datatype ProductRef = ProductRef(id: int, name: string)

  /** The body of the category update: `{ category_id }` and nothing else. */
  datatype CategoryPatch = CategoryPatch(categoryId: int)

  /** The API calls the dialog makes. */
  datatype ProductCall = GetCategories | UpdateProduct(productId: int, patch: CategoryPatch) | GetProducts

  class ProductPage {
    var selectedCategory: Option<Item>
    var currentProduct: Option<ProductRef>
    var allCategories: seq<Item>
    var categoryFilter: string
    var rows: seq<Row>
    var modalShown: bool
    var calls: seq<ProductCall>
    var notices: seq<Notice>

    constructor()
      ensures selectedCategory == None && currentProduct == None && allCategories == [] && categoryFilter == ""
      ensures rows == [] && !modalShown && calls == [] && notices == []
    {
      selectedCategory := None;
      currentProduct := None;
      allCategories := [];
      categoryFilter := "";
      rows := [];
      modalShown := false;
      calls := [];
      notices := [];
    }

    /** `renderCategories`: the filtered categories, the chosen one marked by id. */
    method RenderCategories()
      modifies this
      ensures Shows(rows, FilterItems(allCategories, categoryFilter), SelectedIds(selectedCategory))
      ensures forall k :: 0 <= k < |rows| ==>
                (rows[k].selected <==> selectedCategory.Some? && selectedCategory.value.id == rows[k].item.id)
      ensures selectedCategory == old(selectedCategory) && currentProduct == old(currentProduct)
      ensures allCategories == old(allCategories) && categoryFilter == old(categoryFilter)
      ensures modalShown == old(modalShown) && calls == old(calls) && notices == old(notices)
    {
      rows := RenderRows(FilterItems(allCategories, categoryFilter), SelectedIds(selectedCategory));
    }

    /** `show.bs.modal`: remember the product from the button, then load the categories. */
    method OnShow(productId: int, productName: string, fetched: Option<seq<Item>>)
      modifies this
      ensures currentProduct == Some(ProductRef(productId, productName)) && modalShown
      ensures calls == old(calls) + [GetCategories]
      ensures selectedCategory == old(selectedCategory) && categoryFilter == old(categoryFilter)
      ensures fetched.Some? ==> allCategories == fetched.value && notices == old(notices)
                                && Shows(rows, FilterItems(allCategories, categoryFilter), SelectedIds(selectedCategory))
      ensures fetched.None? ==> allCategories == old(allCategories) && rows == old(rows)
                                && notices == old(notices) + [Notice("Failed to load categories", Error)]
    {
      modalShown := true;
      currentProduct := Some(ProductRef(productId, productName));
      calls := calls + [GetCategories];
      if fetched.None? {
        notices := notices + [Notice("Failed to load categories", Error)];
        return;
      }
      allCategories := fetched.value;
      RenderCategories();
    }

    /** `hide.bs.modal`: forget the chosen category, clear the filter and the list. */
    method OnHide()
      modifies this
      ensures selectedCategory == None && categoryFilter == "" && rows == [] && !modalShown
      ensures currentProduct == old(currentProduct) && allCategories == old(allCategories)
      ensures calls == old(calls) && notices == old(notices)
    {
      selectedCategory := None;
      categoryFilter := "";
      rows := [];
      modalShown := false;
    }

    /** The search box stores the lowercased text and re-renders. */
    method Search(typed: string)
      modifies this
      ensures categoryFilter == SearchFilter(typed)
      ensures Shows(rows, FilterItems(allCategories, categoryFilter), SelectedIds(selectedCategory))
      ensures selectedCategory == old(selectedCategory) && currentProduct == old(currentProduct)
      ensures allCategories == old(allCategories) && modalShown == old(modalShown)
      ensures calls == old(calls) && notices == old(notices)
    {
      categoryFilter := SearchFilter(typed);
      RenderCategories();
    }

    /** A category input changed: it becomes the chosen one only if it is now checked. */
    method Change(category: Item, checked: bool)
      modifies this
      ensures selectedCategory == if checked then Some(category) else old(selectedCategory)
      ensures currentProduct == old(currentProduct) && allCategories == old(allCategories)
      ensures categoryFilter == old(categoryFilter) && rows == old(rows) && modalShown == old(modalShown)
      ensures calls == old(calls) && notices == old(notices)
    {
      if checked {
        selectedCategory := Some(category);
      }
    }

    /**
     * `saveCategory`: without a chosen category, warn and stop. Otherwise patch the current
     * product with only the category id (reading `currentProduct.id` throws while no dialog was
     * opened), then close the dialog, reload the grid and report success. Closing a shown
     * dialog runs its `hide.bs.modal` handler at once, which is `OnHide`.
     */
    method SaveCategory(updateOk: bool)
      modifies this
      ensures currentProduct == old(currentProduct) && allCategories == old(allCategories)
      ensures if old(selectedCategory).Some? && old(currentProduct).Some? && updateOk && old(modalShown)
              then selectedCategory == None && categoryFilter == "" && rows == []
              else selectedCategory == old(selectedCategory) && categoryFilter == old(categoryFilter) && rows == old(rows)
      ensures old(selectedCategory).None? ==>
                calls == old(calls) && modalShown == old(modalShown)
                && notices == old(notices) + [Notice("Please select a category", Warning)]
      ensures old(selectedCategory).Some? && old(currentProduct).None? ==>
                calls == old(calls) && modalShown == old(modalShown)
                && notices == old(notices) + [Notice("Failed to assign category", Error)]
      ensures old(selectedCategory).Some? && old(currentProduct).Some? ==>
                var update := UpdateProduct(old(currentProduct).value.id, CategoryPatch(old(selectedCategory).value.id));
                if updateOk then
                  calls == old(calls) + [update, GetProducts] && !modalShown
                  && notices == old(notices) + [Notice("Category assigned successfully", Success)]
                else
                  calls == old(calls) + [update] && modalShown == old(modalShown)
                  && notices == old(notices) + [Notice("Failed to assign category", Error)]
    {
      if selectedCategory.None? {
        notices := notices + [Notice("Please select a category", Warning)];
        return;
      }
      if currentProduct.None? {
        notices := notices + [Notice("Failed to assign category", Error)];
        return;
      }
      calls := calls + [UpdateProduct(currentProduct.value.id, CategoryPatch(selectedCategory.value.id))];
      if !updateOk {
        notices := notices + [Notice("Failed to assign category", Error)];
        return;
      }
      if modalShown {
        OnHide();
      }
      calls := calls + [GetProducts];
      notices := notices + [Notice("Category assigned successfully", Success)];
    }
  }
}
