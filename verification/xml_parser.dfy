/**
 `parseXML` over the tree the XML library builds (src/lib/parsers.ts).

 The library turns the document into nested objects: an element with
 children becomes an object keyed by tag (attributes under `@_` keys),
 repeated tags become arrays, and leaf text becomes a string, a number or a
 boolean. That tree is the input here. Every field of the document is found
 by a depth-first search for the first of a few candidate keys; the search
 returns the value at the current object's key before it looks inside the
 children, and only a truthy value counts as found.
 */
module XmlParser {
  import opened Wrappers
  import opened Chars
  import opened Numbers
  import opened Amounts
  import opened Dates
  import opened Extractors
  import opened DebtRows
  import opened Documents

  /**
   A value of the parsed tree. A number carries its value and the text
   `String(value)` gives for it. The tree's builder has to keep the two
   consistent; the model does not tie them to each other.
   */
  datatype Value =
    | Text(text: string)
    | Number(number: real, shown: string)
    | Flag(flag: bool)
    | List(items: seq<Value>)
    | Node(fields: seq<Field>)

  /** One key of an object, in the order the document wrote it. */
  datatype Field = Field(key: string, value: Value)

  /** JavaScript truthiness: the empty string, zero and `false` are falsy; arrays and objects are not. */
  predicate Truthy(v: Value) {
    match v
    case Text(s) => s != ""
    case Number(x, _) => x != 0.0
    case Flag(b) => b
    case List(_) => true
    case Node(_) => true
  }

  /** `typeof v === 'object'`: the values the search descends into. */
  predicate IsObject(v: Value) {
    v.List? || v.Node?
  }

  /** `obj[key]` on an object: the value stored under `key`. */
  function Lookup(fields: seq<Field>, key: string): (r: Option<Value>)
    ensures r.Some? <==> exists i :: 0 <= i < |fields| && fields[i].key == key
    ensures r.Some? ==> exists i :: 0 <= i < |fields| && fields[i] == Field(key, r.value)
  {
    if |fields| == 0 then None
    else if fields[0].key == key then Some(fields[0].value)
    else
      var r := Lookup(fields[1..], key);
      assert forall i :: 1 <= i < |fields| ==> fields[i] == fields[1..][i - 1];
      r
  }

  /** `searchInObject(v, key)`: `None` stands for the `null` it returns when nothing is found. */
  function Search(v: Value, key: string): (r: Option<Value>)
    ensures r.Some? ==> Truthy(r.value)
    decreases v
  {
    if !Truthy(v) then None
    else match v
      case Node(fields) =>
        var here := Lookup(fields, key);
        if here.Some? && Truthy(here.value) then here else SearchFields(fields, key)
      case List(items) => SearchItems(items, key)
      case _ => None
  }

  /** The children of an object, in key order: the first object child whose search succeeds. */
  function SearchFields(fields: seq<Field>, key: string): (r: Option<Value>)
    ensures r.Some? ==> Truthy(r.value)
    decreases fields
  {
    if |fields| == 0 then None
    else
      var found := if IsObject(fields[0].value) then Search(fields[0].value, key) else None;
      if found.Some? then found else SearchFields(fields[1..], key)
  }

  /** The elements of an array, in index order. */
  function SearchItems(items: seq<Value>, key: string): (r: Option<Value>)
    ensures r.Some? ==> Truthy(r.value)
    decreases items
  {
    if |items| == 0 then None
    else
      var found := if IsObject(items[0]) then Search(items[0], key) else None;
      if found.Some? then found else SearchItems(items[1..], key)
  }

  /** Reference definition: `x` is stored under `key` in some object of the tree. */
  predicate Reaches(v: Value, key: string, x: Value)
    decreases v
  {
    match v
    case Node(fields) =>
      || Lookup(fields, key) == Some(x)
      || exists i :: 0 <= i < |fields| && Reaches(fields[i].value, key, x)
    case List(items) => exists i :: 0 <= i < |items| && Reaches(items[i], key, x)
    case _ => false
  }

  /** Whatever the search returns is stored under the key somewhere in the tree. */
  lemma {:induction false} SearchSound(v: Value, key: string)
    ensures Search(v, key).Some? ==> Reaches(v, key, Search(v, key).value)
    decreases v, 1
  {
    match v
    case Node(fields) =>
      var here := Lookup(fields, key);
      if !(here.Some? && Truthy(here.value)) {
        SearchFieldsSound(fields, key);
      }
    case List(items) => SearchItemsSound(items, key);
    case _ =>
  }

  lemma {:induction false} SearchFieldsSound(fields: seq<Field>, key: string)
    ensures SearchFields(fields, key).Some? ==>
              exists i :: 0 <= i < |fields| && Reaches(fields[i].value, key, SearchFields(fields, key).value)
    decreases fields, 0
  {
    if |fields| > 0 {
      var found := if IsObject(fields[0].value) then Search(fields[0].value, key) else None;
      if found.Some? {
        SearchSound(fields[0].value, key);
      } else {
        SearchFieldsSound(fields[1..], key);
        if SearchFields(fields, key).Some? {
          var i :| 0 <= i < |fields[1..]| && Reaches(fields[1..][i].value, key, SearchFields(fields, key).value);
          assert fields[1..][i] == fields[i + 1];
        }
      }
    }
  }

  lemma {:induction false} SearchItemsSound(items: seq<Value>, key: string)
    ensures SearchItems(items, key).Some? ==>
              exists i :: 0 <= i < |items| && Reaches(items[i], key, SearchItems(items, key).value)
    decreases items, 0
  {
    if |items| > 0 {
      var found := if IsObject(items[0]) then Search(items[0], key) else None;
      if found.Some? {
        SearchSound(items[0], key);
      } else {
        SearchItemsSound(items[1..], key);
        if SearchItems(items, key).Some? {
          var i :| 0 <= i < |items[1..]| && Reaches(items[1..][i], key, SearchItems(items, key).value);
          assert items[1..][i] == items[i + 1];
        }
      }
    }
  }

  /** The search misses nothing: a truthy value stored under the key anywhere in the tree means it finds one. */
  lemma {:induction false} SearchComplete(v: Value, key: string, x: Value)
    requires Reaches(v, key, x) && Truthy(x)
    ensures Search(v, key).Some?
    decreases v, 1
  {
    match v
    case Node(fields) =>
      if Lookup(fields, key) != Some(x) {
        var i :| 0 <= i < |fields| && Reaches(fields[i].value, key, x);
        SearchFieldsComplete(fields, key, x, i);
      }
    case List(items) =>
      var i :| 0 <= i < |items| && Reaches(items[i], key, x);
      SearchItemsComplete(items, key, x, i);
  }

  lemma {:induction false} SearchFieldsComplete(fields: seq<Field>, key: string, x: Value, i: nat)
    requires i < |fields| && Reaches(fields[i].value, key, x) && Truthy(x)
    ensures SearchFields(fields, key).Some?
    decreases fields, 0
  {
    if i == 0 {
      assert IsObject(fields[0].value);
      SearchComplete(fields[0].value, key, x);
    } else if !(IsObject(fields[0].value) && Search(fields[0].value, key).Some?) {
      assert fields[1..][i - 1] == fields[i];
      SearchFieldsComplete(fields[1..], key, x, i - 1);
    }
  }

  lemma {:induction false} SearchItemsComplete(items: seq<Value>, key: string, x: Value, i: nat)
    requires i < |items| && Reaches(items[i], key, x) && Truthy(x)
    ensures SearchItems(items, key).Some?
    decreases items, 0
  {
    if i == 0 {
      assert IsObject(items[0]);
      SearchComplete(items[0], key, x);
    } else if !(IsObject(items[0]) && Search(items[0], key).Some?) {
      assert items[1..][i - 1] == items[i];
      SearchItemsComplete(items[1..], key, x, i - 1);
    }
  }

  /** The current object's own key is returned before any child is looked at. */
  lemma SearchHereFirst(fields: seq<Field>, key: string, x: Value)
    requires Lookup(fields, key) == Some(x) && Truthy(x)
    ensures Search(Node(fields), key) == Some(x)
  {
  }

  /** `searchInObject(v, k1) || searchInObject(v, k2) || …`: the first candidate key that is found. */
  function SearchAny(v: Value, keys: seq<string>): (r: Option<Value>)
    ensures r.Some? ==> exists k :: 0 <= k < |keys| && Search(v, keys[k]) == r
                               && forall j :: 0 <= j < k ==> Search(v, keys[j]).None?
    ensures r.None? ==> forall k :: 0 <= k < |keys| ==> Search(v, keys[k]).None?
    decreases |keys|
  {
    if |keys| == 0 then None
    else if Search(v, keys[0]).Some? then Search(v, keys[0])
    else
      var r := SearchAny(v, keys[1..]);
      assert forall k :: 1 <= k < |keys| ==> keys[k] == keys[1..][k - 1];
      r
  }

  /** `String(v)`: arrays join their elements with commas, objects print as `[object Object]`. */
  function ToText(v: Value): string
    decreases v
  {
    match v
    case Text(s) => s
    case Number(_, shown) => shown
    case Flag(b) => if b then "true" else "false"
    case List(items) => JoinTexts(items)
    case Node(_) => "[object Object]"
  }

  function JoinTexts(items: seq<Value>): string
    decreases items
  {
    if |items| == 0 then ""
    else if |items| == 1 then ToText(items[0])
    else ToText(items[0]) + "," + JoinTexts(items[1..])
  }

  /** `parseFloat(String(v).replace(',', '.'))`, `None` standing for `NaN`. */
  function AmountOfValue(v: Value): Option<real> {
    ParseFloat(ReplaceFirstComma(ToText(v)))
  }

  const AmountKeys: seq<string> := ["valor", "total", "amount"]
  const DateKeys: seq<string> := ["data", "vencimento", "dueDate"]
  const NameKeys: seq<string> := ["nome", "pagador", "devedor"]
  const IdKeys: seq<string> := ["cpf", "cnpj", "documento"]
  const ListKeys: seq<string> := ["parcelas", "itens", "items", "debitos"]
  const ItemAmountKeys: seq<string> := ["valor", "amount"]
  const ItemDateKeys: seq<string> := ["vencimento", "dueDate"]
  const ItemDescriptionKeys: seq<string> := ["descricao", "description"]

  /**
   One element of the item list: its description (or `Parcela`), its
   amount and its due date, kept only when the amount is a number and the
   date was recognised. A missing amount reads as `String(null)`, which is
   not a number; a missing date reads as the empty text.
   */
  function ItemOf(item: Value): Option<DebtItem> {
    var description := match SearchAny(item, ItemDescriptionKeys)
      case Some(d) => ToText(d)
      case None => "Parcela";
    var amount := match SearchAny(item, ItemAmountKeys)
      case Some(a) => AmountOfValue(a)
      case None => None;
    var due := ExtractDate(ToText(SearchAny(item, ItemDateKeys).GetOr(Text(""))));
    if amount.Some? && due.Some? then Some(DebtItem(due.value, description, amount.value)) else None
  }

  /**
   An element is kept exactly when its amount parses and its date is
   recognised; the amount and date are those, and the description defaults
   to `Parcela`.
   */
  lemma ItemOfKept(item: Value)
    ensures ItemOf(item).Some? <==>
              && SearchAny(item, ItemAmountKeys).Some? && AmountOfValue(SearchAny(item, ItemAmountKeys).value).Some?
              && ExtractDate(ToText(SearchAny(item, ItemDateKeys).GetOr(Text("")))).Some?
    ensures ItemOf(item).Some? ==>
              && ItemOf(item).value.amount == AmountOfValue(SearchAny(item, ItemAmountKeys).value).value
              && Some(ItemOf(item).value.dueDate) == ExtractDate(ToText(SearchAny(item, ItemDateKeys).GetOr(Text(""))))
    ensures ItemOf(item).Some? && SearchAny(item, ItemDescriptionKeys).None? ==> ItemOf(item).value.description == "Parcela"
  {
  }

  /** `items.map(…).filter(…)`: the elements that make an item, in order. */
  function ItemsOf(items: seq<Value>): (r: seq<DebtItem>)
    ensures |r| <= |items|
    decreases |items|
  {
    if |items| == 0 then []
    else
      match ItemOf(items[0])
      case Some(it) => [it] + ItemsOf(items[1..])
      case None => ItemsOf(items[1..])
  }

  /** The filter keeps exactly the elements that make an item, in their order: it splits over concatenation. */
  lemma {:induction false} ItemsOfAppend(a: seq<Value>, b: seq<Value>)
    ensures ItemsOf(a + b) == ItemsOf(a) + ItemsOf(b)
    decreases |a|
  {
    hide ItemOf;
    if |a| == 0 {
      assert a + b == b;
    } else {
      assert (a + b)[0] == a[0] && (a + b)[1..] == a[1..] + b;
      ItemsOfAppend(a[1..], b);
    }
  }

  /** A single element gives its item, or nothing. */
  lemma ItemsOfOne(item: Value)
    ensures ItemsOf([item]) == if ItemOf(item).Some? then [ItemOf(item).value] else []
  {
    hide ItemOf;
    assert [item][1..] == [];
  }

  /** `it` is the item of one of the elements. */
  predicate MadeBy(items: seq<Value>, it: DebtItem) {
    exists j :: 0 <= j < |items| && ItemOf(items[j]) == Some(it)
  }

  /** Every kept item is made by some element. */
  lemma {:induction false} ItemsOfFrom(items: seq<Value>)
    ensures forall i :: 0 <= i < |ItemsOf(items)| ==> MadeBy(items, ItemsOf(items)[i])
    decreases |items|
  {
    hide ItemOf;
    if |items| > 0 {
      var rest := ItemsOf(items[1..]);
      var first := ItemOf(items[0]);
      var all := ItemsOf(items);
      assert all == if first.Some? then [first.value] + rest else rest;
      ItemsOfFrom(items[1..]);
      hide ItemsOf;
      forall i | 0 <= i < |all| ensures MadeBy(items, all[i]) {
        if first.Some? && i == 0 {
          assert ItemOf(items[0]) == Some(all[i]);
        } else {
          var i' := if first.Some? then i - 1 else i;
          assert all[i] == rest[i'];
          assert MadeBy(items[1..], rest[i']);
          var j :| 0 <= j < |items[1..]| && ItemOf(items[1..][j]) == Some(rest[i']);
          assert ItemOf(items[j + 1]) == Some(all[i]);
        }
      }
    }
  }

  /** `parseXML` from the parsed tree. It never throws once the tree exists. */
  function ParseXmlTree(tree: Value): ParsedDocument {
    var amount := match SearchAny(tree, AmountKeys)
      case Some(v) => AmountOfValue(v)
      case None => None;
    var due := match SearchAny(tree, DateKeys)
      case Some(v) => ExtractDate(ToText(v))
      case None => None;
    var name := match SearchAny(tree, NameKeys)
      case Some(v) => Some(ToText(v))
      case None => None;
    var id := match SearchAny(tree, IdKeys)
      case Some(v) => Some(ToText(v))
      case None => None;
    var items := match SearchAny(tree, ListKeys)
      case Some(List(elements)) => Some(ItemsOf(elements))
      case _ => None;
    ParsedDocument(name, amount, due, None, None, id, items)
  }

  /**
   Which fields are filled: the name and identifier whenever a candidate key
   is found, the item list whenever the first list key holds an array, even
   if no element makes an item; never the unit or the condominium.
   */
  lemma ParseXmlFields(tree: Value)
    ensures var doc := ParseXmlTree(tree);
      && doc.unit.None? && doc.condominiumName.None?
      && (doc.debtItems.Some? <==> SearchAny(tree, ListKeys).Some? && SearchAny(tree, ListKeys).value.List?)
      && (doc.debtItems.Some? ==> doc.debtItems.value == ItemsOf(SearchAny(tree, ListKeys).value.items))
      && (doc.debtorName.Some? <==> SearchAny(tree, NameKeys).Some?)
      && (doc.debtorName.Some? ==> doc.debtorName.value == ToText(SearchAny(tree, NameKeys).value))
      && (doc.cpfCnpj.Some? <==> SearchAny(tree, IdKeys).Some?)
  {
    hide SearchAny, ItemsOf, ToText, AmountOfValue, ExtractDate;
  }

  /** The amount is the first candidate's number, or absent when that value is not a number. */
  lemma ParseXmlAmount(tree: Value)
    ensures ParseXmlTree(tree).amount.Some? <==>
              SearchAny(tree, AmountKeys).Some? && AmountOfValue(SearchAny(tree, AmountKeys).value).Some?
    ensures ParseXmlTree(tree).amount.Some? ==> ParseXmlTree(tree).amount == AmountOfValue(SearchAny(tree, AmountKeys).value)
  {
    hide SearchAny, ItemsOf, ToText, AmountOfValue, ExtractDate;
  }

  /** A text amount with a decimal comma is read as a decimal: `12,50` gives 12.5. */
  lemma CommaAmountOfValue(intDigits: string, fracDigits: string)
    requires |intDigits| >= 1 && All(intDigits, IsDigit) && All(fracDigits, IsDigit)
    requires ',' !in intDigits
    ensures AmountOfValue(Text(intDigits + "," + fracDigits)) == Some(DecimalValue(intDigits, fracDigits))
  {
    ReplaceCommaOf(intDigits, fracDigits);
    ParseFloatOfDecimal(intDigits, fracDigits);
  }

  lemma {:induction false} ReplaceCommaOf(a: string, b: string)
    requires ',' !in a
    ensures ReplaceFirstComma(a + "," + b) == a + "." + b
    decreases |a|
  {
    if |a| == 0 {
      assert a + "," + b == "," + b;
      assert ("," + b)[1..] == b;
    } else {
      assert (a + "," + b)[0] == a[0] && (a + "," + b)[1..] == a[1..] + "," + b;
      ReplaceCommaOf(a[1..], b);
      assert a + "." + b == [a[0]] + (a[1..] + "." + b);
    }
  }
}
