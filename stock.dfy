/** The storefront page (static/main.js): the stock list that socket
    messages keep up to date, and the two views rendered from it, the
    category buttons and the item cards of one category. */
module Stock {
  import opened Wrappers
  import opened Json
  import opened Escaping

  /** The message shown when the chosen category has nothing available. */
  const NOTHING_AVAILABLE := "Aucun article disponible"

  /** A catalogue entry as the server sends it. `montant` is kept as the text
      that its card shows. */
  datatype Item = Item(token: string, category: string, available: Option<Json>, montant: string)

  /** A parsed socket message: an array is a snapshot of the whole stock,
      any other value is one entry. */
  datatype Message = Snapshot(items: seq<Item>) | Single(item: Item)

  // ---------------------------------------------------------------------
  // The merge of a socket message into the stock list
  // ---------------------------------------------------------------------

  predicate HasToken(s: seq<Item>, token: string) {
    exists i :: 0 <= i < |s| && s[i].token == token
  }

  /** No two entries share a token. */
  predicate DistinctTokens(s: seq<Item>) {
    forall i, j :: 0 <= i < j < |s| ==> s[i].token != s[j].token
  }

  /** `s.findIndex(i => i.token === token)`: the first entry with the token,
      or -1 when there is none. */
  function FindIndex(s: seq<Item>, token: string): (r: int)
    ensures -1 <= r < |s|
    ensures r == -1 <==> !HasToken(s, token)
    ensures r != -1 ==> s[r].token == token && forall j :: 0 <= j < r ==> s[j].token != token
  {
    if s == [] then -1
    else if s[0].token == token then 0
    else
      var k := FindIndex(s[1..], token);
      assert forall j :: 1 <= j < |s| ==> s[j] == s[1..][j - 1];
      if k == -1 then -1 else k + 1
  }

  /** The merge of a single entry: it replaces the first entry with the same
      token, at the same index, or is appended when no entry has its token. */
  function Upsert(s: seq<Item>, item: Item): (r: seq<Item>)
    ensures !HasToken(s, item.token) ==> r == s + [item]
    ensures HasToken(s, item.token) ==>
      var k := FindIndex(s, item.token);
      && |r| == |s| && r[k] == item
      && forall j :: 0 <= j < |s| && j != k ==> r[j] == s[j]
  {
    var k := FindIndex(s, item.token);
    if k == -1 then s + [item] else s[k := item]
  }

  /** The stock list after a message: a snapshot replaces it wholesale. */
  function Merge(s: seq<Item>, msg: Message): seq<Item> {
    match msg
    case Snapshot(items) => items
    case Single(item) => Upsert(s, item)
  }

  /** A merged entry is the one a later lookup of its token finds. */
  lemma UpsertFound(s: seq<Item>, item: Item)
    ensures var r := Upsert(s, item);
      var k := FindIndex(r, item.token);
      0 <= k < |r| && r[k] == item
  {
    var r := Upsert(s, item);
    var k := FindIndex(s, item.token);
    if k == -1 {
      assert r[|s|].token == item.token;
      assert forall j :: 0 <= j < |s| ==> r[j].token != item.token;
      assert FindIndex(r, item.token) == |s|;
    } else {
      assert r[k].token == item.token;
      assert forall j :: 0 <= j < k ==> r[j].token != item.token;
      assert FindIndex(r, item.token) == k;
    }
  }

  /** Receiving the same entry twice leaves the list as receiving it once. */
  lemma UpsertIdempotent(s: seq<Item>, item: Item)
    ensures Upsert(Upsert(s, item), item) == Upsert(s, item)
  {
    var r := Upsert(s, item);
    UpsertFound(s, item);
    var k := FindIndex(r, item.token);
    assert r[k := item] == r;
  }

  /** A single-entry merge keeps tokens pairwise distinct. */
  lemma UpsertDistinct(s: seq<Item>, item: Item)
    requires DistinctTokens(s)
    ensures DistinctTokens(Upsert(s, item))
  {
    var r := Upsert(s, item);
    if HasToken(s, item.token) {
      assert forall j :: 0 <= j < |s| ==> r[j].token == s[j].token;
    } else {
      assert forall j :: 0 <= j < |s| ==> r[j] == s[j] && s[j].token != item.token;
    }
  }

  /** Distinct tokens survive every message that does not itself repeat a
      token. */
  lemma MergeDistinct(s: seq<Item>, msg: Message)
    requires DistinctTokens(s)
    requires msg.Snapshot? ==> DistinctTokens(msg.items)
    ensures DistinctTokens(Merge(s, msg))
  {
    if msg.Single? {
      UpsertDistinct(s, msg.item);
    }
  }

  // ---------------------------------------------------------------------
  // The category view
  // ---------------------------------------------------------------------

  /** The position of the first occurrence of x in xs. */
  function FirstIndexOf(xs: seq<string>, x: string): (r: nat)
    requires x in xs
    ensures r < |xs| && xs[r] == x && x !in xs[..r]
  {
    if xs[0] == x then 0 else 1 + FirstIndexOf(xs[1..], x)
  }

  /** `[...new Set(xs)]`: every value of xs exactly once. */
  function Distinct(xs: seq<string>): (r: seq<string>)
    ensures forall x :: x in r <==> x in xs
    ensures forall i, j :: 0 <= i < j < |r| ==> r[i] != r[j]
  {
    if xs == [] then []
    else
      var d := Distinct(xs[..|xs| - 1]);
      var x := xs[|xs| - 1];
      assert xs == xs[..|xs| - 1] + [x];
      if x in d then d else d + [x]
  }

  /** A first occurrence inside a prefix is the first occurrence in the
      whole sequence. */
  lemma {:induction false} FirstIndexOfPrefix(xs: seq<string>, n: nat, x: string)
    requires n <= |xs| && x in xs[..n]
    ensures FirstIndexOf(xs, x) == FirstIndexOf(xs[..n], x)
  {
    if xs[0] != x {
      assert xs[..n][1..] == xs[1..][..n - 1];
      FirstIndexOfPrefix(xs[1..], n - 1, x);
    }
  }

  /** The values of r occur in xs, in the order of their first occurrence. */
  predicate InFirstOccurrenceOrder(xs: seq<string>, r: seq<string>) {
    && (forall i :: 0 <= i < |r| ==> r[i] in xs)
    && forall i, j :: 0 <= i < j < |r| ==> FirstIndexOf(xs, r[i]) < FirstIndexOf(xs, r[j])
  }

  /** Extending xs keeps an order of first occurrences in a prefix of it. */
  lemma OrderExtends(xs: seq<string>, n: nat, r: seq<string>)
    requires n <= |xs| && InFirstOccurrenceOrder(xs[..n], r)
    ensures InFirstOccurrenceOrder(xs, r)
  {
    forall i | 0 <= i < |r| ensures r[i] in xs && FirstIndexOf(xs, r[i]) == FirstIndexOf(xs[..n], r[i]) {
      FirstIndexOfPrefix(xs, n, r[i]);
    }
  }

  /** A value first seen after all of d may follow d. */
  lemma OrderAppend(xs: seq<string>, d: seq<string>, x: string)
    requires InFirstOccurrenceOrder(xs, d) && x in xs
    requires forall i :: 0 <= i < |d| ==> FirstIndexOf(xs, d[i]) < FirstIndexOf(xs, x)
    ensures InFirstOccurrenceOrder(xs, d + [x])
  {
    var r := d + [x];
    assert forall i :: 0 <= i < |d| ==> r[i] == d[i];
  }

  /** The values of `[...new Set(xs)]` come in the order of their first
      occurrence in xs. */
  lemma {:induction false} DistinctOrder(xs: seq<string>)
    ensures InFirstOccurrenceOrder(xs, Distinct(xs))
  {
    if xs != [] {
      var n := |xs| - 1;
      var x := xs[n];
      var d := Distinct(xs[..n]);
      DistinctOrder(xs[..n]);
      OrderExtends(xs, n, d);
      if x !in d {
        assert x !in xs[..n];
        assert FirstIndexOf(xs, x) == n;
        forall i | 0 <= i < |d| ensures FirstIndexOf(xs, d[i]) < n {
          FirstIndexOfPrefix(xs, n, d[i]);
        }
        OrderAppend(xs, d, x);
      }
    }
  }

  /** `stockData.map(i => i.category)`. */
  function CategoriesOf(s: seq<Item>): (r: seq<string>)
    ensures |r| == |s| && forall i :: 0 <= i < |s| ==> r[i] == s[i].category
  {
    seq(|s|, i requires 0 <= i < |s| => s[i].category)
  }

  /** The categories listed, once each, in order of first occurrence. */
  function Categories(s: seq<Item>): seq<string> {
    Distinct(CategoriesOf(s))
  }

  /** Every entry's category is listed, and nothing else is. */
  lemma CategoriesListed(s: seq<Item>, c: string)
    ensures c in Categories(s) <==> exists i :: 0 <= i < |s| && s[i].category == c
  {
    var cs := CategoriesOf(s);
    if c in cs {
      var i :| 0 <= i < |cs| && cs[i] == c;
      assert s[i].category == c;
    }
  }

  /** The filter condition `i.category === category && i.available`. */
  predicate Offered(it: Item, category: string) {
    it.category == category && Truthy(it.available)
  }

  /** `s.filter(i => i.category === category && i.available)`. */
  function AvailableIn(s: seq<Item>, category: string): (r: seq<Item>)
    ensures |r| <= |s|
    ensures forall it :: it in r <==> it in s && Offered(it, category)
  {
    if s == [] then []
    else (if Offered(s[0], category) then [s[0]] else []) + AvailableIn(s[1..], category)
  }

  /** `s.filter(i => i.category === category)`. */
  function InCategory(s: seq<Item>, category: string): (r: seq<Item>)
    ensures forall it :: it in r <==> it in s && it.category == category
  {
    if s == [] then []
    else (if s[0].category == category then [s[0]] else []) + InCategory(s[1..], category)
  }

  /** The filter keeps stock order: it distributes over concatenation. */
  lemma {:induction false} AvailableInAppend(a: seq<Item>, b: seq<Item>, category: string)
    ensures AvailableIn(a + b, category) == AvailableIn(a, category) + AvailableIn(b, category)
  {
    if a == [] {
      assert a + b == b;
    } else {
      assert (a + b)[1..] == a[1..] + b;
      AvailableInAppend(a[1..], b, category);
    }
  }

  /** A category's count of available entries never exceeds its number of
      entries. */
  lemma {:induction false} CountBound(s: seq<Item>, category: string)
    ensures |AvailableIn(s, category)| <= |InCategory(s, category)|
  {
    if s != [] {
      CountBound(s[1..], category);
    }
  }

  /** A category button: the escaped caption and the count of available
      entries. */
  datatype CategoryButton = CategoryButton(category: string, caption: string, count: nat)

  /** An item card: the escaped category heading, the amount, and the token
      its buy button sends. */
  datatype ItemCard = ItemCard(heading: string, montant: string, token: string)

  function ButtonFor(s: seq<Item>, category: string): CategoryButton {
    CategoryButton(category, EscapeHtmlOnePass(category), |AvailableIn(s, category)|)
  }

  function CardFor(it: Item): ItemCard {
    ItemCard(EscapeHtmlOnePass(it.category), it.montant, it.token)
  }

  /** `if (currentCategory)`: null and the empty string are falsy. */
  predicate Selected(currentCategory: Option<string>) {
    currentCategory.Some? && currentCategory.value != ""
  }

  /** The page's state: the stock list, the chosen category, the contents of
      the categories and items containers, and the message line. */
  class StockPage {
    var stockData: seq<Item>
    var currentCategory: Option<string>
    var categories: seq<CategoryButton>
    var cards: seq<ItemCard>
    var message: string

    /** The state `renderCategories` leaves. */
    ghost predicate ShowsCategories()
      reads this
    {
      var cats := Categories(stockData);
      && cards == [] && currentCategory == None && message == ""
      && |categories| == |cats|
      && forall k :: 0 <= k < |cats| ==> categories[k] == ButtonFor(stockData, cats[k])
    }

    /** The containers and chosen category `renderItems(category)` leaves. */
    ghost predicate ShowsItems(category: string)
      reads this
    {
      var items := AvailableIn(stockData, category);
      && categories == [] && currentCategory == Some(category)
      && |cards| == |items|
      && forall k :: 0 <= k < |items| ==> cards[k] == CardFor(items[k])
    }

    constructor ()
      ensures stockData == [] && currentCategory == None
      ensures categories == [] && cards == [] && message == ""
    {
      stockData := [];
      currentCategory := None;
      categories := [];
      cards := [];
      message := "";
    }

    /** `renderCategories()`, also the back button: one button per category
        and the message line cleared. */
    method RenderCategories()
      modifies this`currentCategory, this`categories, this`cards, this`message
      ensures ShowsCategories()
    {
      cards := [];
      currentCategory := None;
      var cats := Categories(stockData);
      var buttons: seq<CategoryButton> := [];
      for k := 0 to |cats|
        invariant |buttons| == k
        invariant forall j :: 0 <= j < k ==> buttons[j] == ButtonFor(stockData, cats[j])
      {
        var cat := cats[k];
        var count := |AvailableIn(stockData, cat)|;
        buttons := buttons + [CategoryButton(cat, EscapeHtmlOnePass(cat), count)];
      }
      categories := buttons;
      message := "";
    }

    /** `renderItems(category)`, also a category button's click: one card per
        available entry of the category; when there is none the message line
        says so, otherwise it is left as it was. */
    method RenderItems(category: string)
      modifies this`currentCategory, this`categories, this`cards, this`message
      ensures ShowsItems(category)
      ensures message == if AvailableIn(stockData, category) == [] then NOTHING_AVAILABLE else old(message)
    {
      categories := [];
      currentCategory := Some(category);
      cards := [];
      var items := AvailableIn(stockData, category);
      if items == [] {
        message := NOTHING_AVAILABLE;
        return;
      }
      var shown: seq<ItemCard> := [];
      for k := 0 to |items|
        invariant |shown| == k
        invariant forall j :: 0 <= j < k ==> shown[j] == CardFor(items[j])
      {
        shown := shown + [ItemCard(EscapeHtmlOnePass(items[k].category), items[k].montant, items[k].token)];
      }
      cards := shown;
    }

    /** The socket's message listener: the message is merged into the stock
        list, then the chosen category is shown again, or the category list
        when no category is chosen. */
    method OnMessage(msg: Message)
      modifies this
      ensures stockData == Merge(old(stockData), msg)
      ensures Selected(old(currentCategory)) ==>
        var category := old(currentCategory).value;
        && ShowsItems(category)
        && message == if AvailableIn(stockData, category) == [] then NOTHING_AVAILABLE else old(message)
      ensures !Selected(old(currentCategory)) ==> ShowsCategories()
    {
      match msg {
        case Snapshot(items) =>
          stockData := items;
        case Single(item) =>
          var idx := FindIndex(stockData, item.token);
          if idx != -1 {
            stockData := stockData[idx := item];
          } else {
            stockData := stockData + [item];
          }
      }
      if currentCategory.Some? && currentCategory.value != "" {
        RenderItems(currentCategory.value);
      } else {
        RenderCategories();
      }
    }
  }
}
