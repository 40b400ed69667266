/**
 * The portfolio filter's click handler (main.js:86-115). Each filter button
 * has a data-filter value and an 'active' class; each portfolio item has a
 * data-category value and an inline style. The buttons' active flags and the
 * items' styles are the two arrays the handler's forEach loops update in
 * place.
 *
 * An item's style is modelled in its settled form: the handler sets part of
 * it at once and the rest in a 10 ms (shown) or 300 ms (hidden) timer, and
 * the model applies both parts in the same loop iteration.
 */
module PortfolioFilter {

  /** The inline style properties the handler writes. */
  datatype ItemStyle = ItemStyle(display: string, opacity: string, transform: string)

  /** The filter that shows every item. */
  const ShowAll: string := "all"

  /** An item stays visible under a filter when the filter is 'all' or names its category. */
  predicate Matches(filter: string, category: string)
  {
    filter == ShowAll || category == filter
  }

  /**
   * An item's style once both the filter handler's immediate assignments and
   * its timer have run. Opacity and transform are the handler's own writes;
   * the fade-in observer may overwrite them afterwards.
   */
  function SettledStyle(filter: string, category: string): (r: ItemStyle)
    ensures r.display == "block" <==> filter == ShowAll || category == filter
    ensures r.display == "none" <==> !(filter == ShowAll || category == filter)
    ensures r.opacity == "1" <==> r.display == "block"
  {
    if Matches(filter, category) then
      // display at once, then opacity and scale after 10 ms
      ItemStyle("block", "1", "scale(1)")
    else
      // opacity and scale at once, then display after 300 ms
      ItemStyle("none", "0", "scale(0.8)")
  }

  /**
   * A click on button `clicked`: every button loses 'active', the clicked
   * one gains it, and every item is shown or hidden by the clicked button's
   * filter.
   */
  method ClickFilter(buttonFilters: seq<string>, buttonActive: array<bool>, clicked: nat,
                     itemCategories: seq<string>, itemStyles: array<ItemStyle>)
    requires buttonActive.Length == |buttonFilters| && clicked < |buttonFilters|
    requires itemStyles.Length == |itemCategories|
    modifies buttonActive, itemStyles
    ensures forall i | 0 <= i < buttonActive.Length :: buttonActive[i] == (i == clicked)
    ensures forall j | 0 <= j < itemStyles.Length ::
              itemStyles[j] == SettledStyle(buttonFilters[clicked], itemCategories[j])
  {
    var filter := buttonFilters[clicked];
    var i := 0;
    while i < buttonActive.Length
      invariant 0 <= i <= buttonActive.Length
      invariant forall m | 0 <= m < i :: !buttonActive[m]
    {
      buttonActive[i] := false;
      i := i + 1;
    }
    buttonActive[clicked] := true;
    var j := 0;
    while j < itemStyles.Length
      invariant 0 <= j <= itemStyles.Length
      invariant forall m | 0 <= m < j :: itemStyles[m] == SettledStyle(filter, itemCategories[m])
      invariant forall m | 0 <= m < buttonActive.Length :: buttonActive[m] == (m == clicked)
    {
      var style := itemStyles[j];
      if Matches(filter, itemCategories[j]) {
        style := style.(display := "block");
        style := style.(opacity := "1", transform := "scale(1)");
      } else {
        style := style.(opacity := "0", transform := "scale(0.8)");
        style := style.(display := "none");
      }
      itemStyles[j] := style;
      j := j + 1;
    }
  }

  /** The 'all' button shows every item. */
  lemma ShowAllShowsEverything(categories: seq<string>)
    ensures forall j | 0 <= j < |categories| :: SettledStyle(ShowAll, categories[j]).display == "block"
  {
  }
}
