// Items and recipes (server/src/Item.cpp). A database that passes the creation rules has recipes that
// are unique, order-free and never nested; so an item has a fixed set of base components, and
// combining conserves them.
module Items {
  import opened Wrappers

  type ItemId = nat   // 0 = no item

  // `effect`: the item does something by itself (stats, traits, abilities or auras).
  datatype ItemDef = ItemDef(id: ItemId, first: ItemId, second: ItemId, consumable: bool, effect: bool)

  predicate Combined(d: ItemDef) {
    d.first != 0 && d.second != 0
  }

  predicate Known(defs: seq<ItemDef>, id: ItemId) {
    exists k | 0 <= k < |defs| :: defs[k].id == id
  }

  predicate Base(defs: seq<ItemDef>, id: ItemId) {
    Known(defs, id) && forall k | 0 <= k < |defs| && defs[k].id == id :: !Combined(defs[k])
  }

  predicate Makes(d: ItemDef, a: ItemId, b: ItemId) {
    Combined(d) && ((d.first == a && d.second == b) || (d.first == b && d.second == a))
  }

  predicate Ascending(defs: seq<ItemDef>) {
    forall i, j | 0 <= i < j < |defs| :: defs[i].id < defs[j].id
  }

  predicate Ingredient(defs: seq<ItemDef>, id: ItemId) {
    exists k | 0 <= k < |defs| :: Combined(defs[k]) && (defs[k].first == id || defs[k].second == id)
  }

  // The rules one item has to meet.
  predicate ItemOk(defs: seq<ItemDef>, i: nat)
    requires i < |defs|
  {
    var d := defs[i];
    && d.id != 0
    && (d.first == 0 <==> d.second == 0)
    && (d.consumable ==> !Combined(d) && !d.effect)
    && (Combined(d) ==> d.first != d.id && d.second != d.id && Base(defs, d.first) && Base(defs, d.second))
    && (forall j | 0 <= j < i && Combined(d) :: !Makes(defs[j], d.first, d.second))
    && (d.effect || Combined(d) || d.consumable || Ingredient(defs, d.id))
  }

  predicate DatabaseOk(defs: seq<ItemDef>) {
    Ascending(defs) && forall i | 0 <= i < |defs| :: ItemOk(defs, i)
  }

  // ---- Creating a database ----------------------------------------------------------------------

  method IsKnown(defs: seq<ItemDef>, id: ItemId) returns (known: bool, base: bool)
    ensures known <==> Known(defs, id)
    ensures base <==> Base(defs, id)
  {
    known, base := false, true;
    for k := 0 to |defs|
      invariant known <==> exists m | 0 <= m < k :: defs[m].id == id
      invariant base <==> forall m | 0 <= m < k && defs[m].id == id :: !Combined(defs[m])
    {
      if defs[k].id == id {
        known, base := true, base && !Combined(defs[k]);
      }
    }
    base := known && base;
  }

  // (The definitions arrive sorted by id.)
  method Create(defs: seq<ItemDef>) returns (ok: bool)
    requires forall i, j | 0 <= i < j < |defs| :: defs[i].id <= defs[j].id
    ensures ok <==> DatabaseOk(defs)
  {
    hide Checked, Ingredient, Makes, Known, Base, ItemOk;
    var ingredients: set<ItemId> := {};
    var recipes: set<(ItemId, ItemId)> := {};
    NoIngredients(defs);
    for i := 0 to |defs|
      invariant Ascending(defs[..i])
      invariant forall m | 0 <= m < i :: Checked(defs, m)
      invariant forall id :: id in ingredients <==> Ingredient(defs[..i], id)
      invariant RecipesUpTo(defs, i, recipes)
    {
      if i > 0 && defs[i - 1].id == defs[i].id {
        return false;
      }
      ok := CheckItem(defs, i, recipes);
      if !ok {
        CheckedIfOk(defs, i);
        return false;
      }
      var d := defs[i];
      RecipeStep(defs, i);
      RecipesNext(defs, i, recipes);
      if Combined(d) {
        ingredients := ingredients + {d.first, d.second};
        recipes := recipes + {Key(d)};
      }
    }
    assert defs[..|defs|] == defs;
    ok := true;
    for i := 0 to |defs|
      invariant forall m | 0 <= m < i :: ItemOk(defs, m)
    {
      var d := defs[i];
      OkIfChecked(defs, i);
      if !d.effect && !Combined(d) && !d.consumable && d.id !in ingredients {
        return false;
      }
    }
  }

  // The two components of a recipe, the smaller one first.
  function Key(d: ItemDef): (ItemId, ItemId) {
    if d.first <= d.second then (d.first, d.second) else (d.second, d.first)
  }

  ghost predicate RecipesUpTo(defs: seq<ItemDef>, i: nat, recipes: set<(ItemId, ItemId)>)
    requires i <= |defs|
  {
    forall key :: key in recipes <==> exists m | 0 <= m < i :: Combined(defs[m]) && Key(defs[m]) == key
  }

  lemma NoIngredients(defs: seq<ItemDef>)
    ensures forall id :: !Ingredient(defs[..0], id)
    ensures RecipesUpTo(defs, 0, {})
  {
  }

  lemma RecipesNext(defs: seq<ItemDef>, i: nat, recipes: set<(ItemId, ItemId)>)
    requires i < |defs| && RecipesUpTo(defs, i, recipes)
    ensures RecipesUpTo(defs, i + 1, if Combined(defs[i]) then recipes + {Key(defs[i])} else recipes)
  {
  }

  method CheckItem(defs: seq<ItemDef>, i: nat, recipes: set<(ItemId, ItemId)>) returns (ok: bool)
    requires i < |defs| && RecipesUpTo(defs, i, recipes)
    ensures ok <==> Checked(defs, i)
  {
    hide Known, Base;
    var d := defs[i];
    if d.id == 0 || ((d.first == 0) != (d.second == 0)) || (d.consumable && (Combined(d) || d.effect)) {
      return false;
    }
    if Combined(d) {
      var _, base1 := IsKnown(defs, d.first);
      var _, base2 := IsKnown(defs, d.second);
      KeyTells(defs, i, recipes);
      return d.first != d.id && d.second != d.id && base1 && base2 && Key(d) !in recipes;
    }
    return true;
  }

  lemma KeyTells(defs: seq<ItemDef>, i: nat, recipes: set<(ItemId, ItemId)>)
    requires i < |defs| && RecipesUpTo(defs, i, recipes) && Combined(defs[i])
    ensures Key(defs[i]) in recipes <==> exists j | 0 <= j < i :: Makes(defs[j], defs[i].first, defs[i].second)
  {
    forall j | 0 <= j < i
      ensures Makes(defs[j], defs[i].first, defs[i].second) <==> Combined(defs[j]) && Key(defs[j]) == Key(defs[i])
    {
    }
    if Key(defs[i]) in recipes {
      var j :| 0 <= j < i && Combined(defs[j]) && Key(defs[j]) == Key(defs[i]);
      assert Makes(defs[j], defs[i].first, defs[i].second);
    }
  }

  lemma CheckedIfOk(defs: seq<ItemDef>, i: nat)
    requires i < |defs|
    ensures ItemOk(defs, i) ==> Checked(defs, i)
  {
  }

  lemma OkIfChecked(defs: seq<ItemDef>, i: nat)
    requires i < |defs| && Checked(defs, i)
    ensures ItemOk(defs, i) <==> defs[i].effect || Combined(defs[i]) || defs[i].consumable || Ingredient(defs, defs[i].id)
  {
  }

  // Everything but the last rule.
  predicate Checked(defs: seq<ItemDef>, i: nat)
    requires i < |defs|
  {
    var d := defs[i];
    && d.id != 0
    && (d.first == 0 <==> d.second == 0)
    && (d.consumable ==> !Combined(d) && !d.effect)
    && (Combined(d) ==> d.first != d.id && d.second != d.id && Base(defs, d.first) && Base(defs, d.second))
    && (forall j | 0 <= j < i && Combined(d) :: !Makes(defs[j], d.first, d.second))
  }

  lemma RecipeStep(defs: seq<ItemDef>, i: nat)
    requires i < |defs|
    ensures forall id :: Ingredient(defs[..i + 1], id) <==> Ingredient(defs[..i], id) || (Combined(defs[i]) && (defs[i].first == id || defs[i].second == id))
  {
    var longer, shorter := defs[..i + 1], defs[..i];
    forall id
      ensures Ingredient(longer, id) <==> Ingredient(shorter, id) || (Combined(defs[i]) && (defs[i].first == id || defs[i].second == id))
    {
      if Ingredient(shorter, id) {
        var k :| 0 <= k < i && Combined(shorter[k]) && (shorter[k].first == id || shorter[k].second == id);
        assert Combined(longer[k]);
      }
      if Combined(defs[i]) && (defs[i].first == id || defs[i].second == id) {
        assert Combined(longer[i]);
      }
    }
  }

  // ---- Looking things up ------------------------------------------------------------------------

  // Binary search for the first id not below the one wanted.
  method Find(defs: seq<ItemDef>, id: ItemId) returns (found: Option<ItemDef>)
    requires Ascending(defs)
    ensures found.Some? ==> found.value in defs && found.value.id == id
    ensures found.None? ==> !Known(defs, id)
  {
    var lo, hi := 0, |defs|;
    while lo < hi
      invariant 0 <= lo <= hi <= |defs|
      invariant forall k | 0 <= k < lo :: defs[k].id < id
      invariant forall k | hi <= k < |defs| :: defs[k].id >= id
    {
      var mid := (lo + hi) / 2;
      if defs[mid].id < id {
        lo := mid + 1;
      } else {
        hi := mid;
      }
    }
    return if lo == |defs| || defs[lo].id != id then None else Some(defs[lo]);
  }

  // What a and b turn into, in either order; 0 if nothing.
  function Combination(defs: seq<ItemDef>, a: ItemId, b: ItemId): ItemId {
    if a == 0 || b == 0 || defs == [] then 0
    else if Makes(defs[0], a, b) then defs[0].id
    else Combination(defs[1..], a, b)
  }

  method FindCombination(defs: seq<ItemDef>, a: ItemId, b: ItemId) returns (made: ItemId)
    ensures made == Combination(defs, a, b)
  {
    if a == 0 || b == 0 {
      return 0;
    }
    for k := 0 to |defs|
      invariant Combination(defs, a, b) == Combination(defs[k..], a, b)
    {
      assert defs[k..][1..] == defs[k + 1..];
      if Makes(defs[k], a, b) {
        return defs[k].id;
      }
    }
    return 0;
  }

  lemma {:induction false} CombinationExact(defs: seq<ItemDef>, a: ItemId, b: ItemId)
    requires a != 0 && b != 0 && forall k | 0 <= k < |defs| :: defs[k].id != 0
    ensures Combination(defs, a, b) != 0 ==> exists k :: 0 <= k < |defs| && Makes(defs[k], a, b) && defs[k].id == Combination(defs, a, b)
    ensures Combination(defs, a, b) == 0 ==> forall k | 0 <= k < |defs| :: !Makes(defs[k], a, b)
  {
    if defs != [] {
      if Makes(defs[0], a, b) {
        assert defs[0].id == Combination(defs, a, b);
      } else {
        CombinationExact(defs[1..], a, b);
        if Combination(defs, a, b) != 0 {
          var k :| 0 <= k < |defs[1..]| && Makes(defs[1..][k], a, b) && defs[1..][k].id == Combination(defs[1..], a, b);
          assert Makes(defs[k + 1], a, b);
        } else {
          forall k | 0 <= k < |defs|
            ensures !Makes(defs[k], a, b)
          {
            assert k > 0 ==> defs[k] == defs[1..][k - 1];
          }
        }
      }
    }
  }

  // Order-free and unique: whichever item is made from a and b is the one that is found.
  lemma RecipesAreUnique(defs: seq<ItemDef>, a: ItemId, b: ItemId, k: nat)
    requires DatabaseOk(defs) && a != 0 && b != 0 && k < |defs|
    ensures Combination(defs, a, b) == Combination(defs, b, a)
    ensures Makes(defs[k], a, b) <==> Combination(defs, a, b) == defs[k].id
  {
    forall i | 0 <= i < |defs|
      ensures defs[i].id != 0
    {
      assert ItemOk(defs, i);
    }
    forall i | 0 <= i < |defs|
      ensures Makes(defs[i], a, b) <==> Makes(defs[i], b, a)
    {
    }
    CombinationExact(defs, a, b);
    CombinationExact(defs, b, a);
    if Combination(defs, a, b) != 0 {
      var m :| 0 <= m < |defs| && Makes(defs[m], a, b) && defs[m].id == Combination(defs, a, b);
      assert Makes(defs[m], b, a);
      var n :| 0 <= n < |defs| && Makes(defs[n], b, a) && defs[n].id == Combination(defs, b, a);
      SameRecipe(defs, m, n, a, b);
      if Makes(defs[k], a, b) {
        SameRecipe(defs, m, k, a, b);
      }
    }
  }

  lemma SameRecipe(defs: seq<ItemDef>, m: nat, n: nat, a: ItemId, b: ItemId)
    requires DatabaseOk(defs) && m < |defs| && n < |defs| && Makes(defs[m], a, b) && (Makes(defs[n], a, b) || Makes(defs[n], b, a))
    ensures m == n
  {
    assert ItemOk(defs, m) && ItemOk(defs, n);
  }

  // ---- Components --------------------------------------------------------------------------------

  // How often the base component c goes into an item.
  function Parts(defs: seq<ItemDef>, item: ItemId, c: ItemId): nat {
    if item == 0 then 0
    else if defs == [] then One(item, c)
    else if defs[0].id == item && Combined(defs[0]) then One(defs[0].first, c) + One(defs[0].second, c)
    else Parts(defs[1..], item, c)
  }

  function One(item: ItemId, c: ItemId): nat {
    if item == c then 1 else 0
  }

  lemma {:induction false} PartsOfBase(defs: seq<ItemDef>, item: ItemId, c: ItemId)
    requires item != 0 && forall k | 0 <= k < |defs| && defs[k].id == item :: !Combined(defs[k])
    ensures Parts(defs, item, c) == One(item, c)
  {
    if defs != [] {
      assert defs[0].id == item ==> !Combined(defs[0]);
      forall k | 0 <= k < |defs[1..]| && defs[1..][k].id == item
        ensures !Combined(defs[1..][k])
      {
        assert defs[1..][k] == defs[k + 1];
      }
      PartsOfBase(defs[1..], item, c);
    }
  }

  lemma {:induction false} PartsOfCombined(defs: seq<ItemDef>, k: nat, c: ItemId)
    requires k < |defs| && Combined(defs[k]) && defs[k].id != 0
    requires forall i, j | 0 <= i < j < |defs| :: defs[i].id != defs[j].id
    ensures Parts(defs, defs[k].id, c) == One(defs[k].first, c) + One(defs[k].second, c)
  {
    if k > 0 {
      var rest := defs[1..];
      assert defs[0].id != defs[k].id;
      forall i, j | 0 <= i < j < |rest|
        ensures rest[i].id != rest[j].id
      {
        assert rest[i] == defs[i + 1] && rest[j] == defs[j + 1];
      }
      PartsOfCombined(rest, k - 1, c);
    }
  }

  // What combines is base, and nothing is lost: the new item holds exactly the two components.
  lemma CombiningKeepsParts(defs: seq<ItemDef>, a: ItemId, b: ItemId, c: ItemId)
    requires DatabaseOk(defs) && Combination(defs, a, b) != 0
    ensures Base(defs, a) && Base(defs, b)
    ensures Parts(defs, Combination(defs, a, b), c) == Parts(defs, a, c) + Parts(defs, b, c) == One(a, c) + One(b, c)
  {
    forall i | 0 <= i < |defs|
      ensures defs[i].id != 0
    {
      assert ItemOk(defs, i);
    }
    assert a != 0 && b != 0;
    CombinationExact(defs, a, b);
    var k :| 0 <= k < |defs| && Makes(defs[k], a, b) && defs[k].id == Combination(defs, a, b);
    assert ItemOk(defs, k);
    PartsOfBase(defs, a, c);
    PartsOfBase(defs, b, c);
    PartsOfCombined(defs, k, c);
  }

  // Recipes are never nested: what comes out of one combines with nothing.
  lemma FinishedNeverCombines(defs: seq<ItemDef>, a: ItemId, b: ItemId, x: ItemId)
    requires DatabaseOk(defs) && Combination(defs, a, b) != 0
    ensures Combination(defs, Combination(defs, a, b), x) == 0
  {
    forall i | 0 <= i < |defs|
      ensures defs[i].id != 0
    {
      assert ItemOk(defs, i);
    }
    CombinationExact(defs, a, b);
    var k :| 0 <= k < |defs| && Makes(defs[k], a, b) && defs[k].id == Combination(defs, a, b);
    forall m | 0 <= m < |defs|
      ensures !Makes(defs[m], defs[k].id, x)
    {
      assert ItemOk(defs, m);
    }
    if x != 0 {
      CombinationExact(defs, defs[k].id, x);
    }
  }

  function PartsOf(defs: seq<ItemDef>, items: seq<ItemId>, c: ItemId): nat {
    if items == [] then 0 else PartsOf(defs, items[..|items| - 1], c) + Parts(defs, items[|items| - 1], c)
  }

  lemma {:induction false} PartsAppend(defs: seq<ItemDef>, a: seq<ItemId>, b: seq<ItemId>, c: ItemId)
    ensures PartsOf(defs, a + b, c) == PartsOf(defs, a, c) + PartsOf(defs, b, c)
  {
    if b == [] {
      assert a + b == a;
    } else {
      hide Parts;
      PartsAppend(defs, a, b[..|b| - 1], c);
      assert (a + b)[..|a + b| - 1] == a + b[..|b| - 1];
    }
  }

  lemma PartsOfOne(defs: seq<ItemDef>, item: ItemId, c: ItemId)
    ensures PartsOf(defs, [item], c) == Parts(defs, item, c)
  {
    assert [item][..0] == [];
  }

  lemma PartsErase(defs: seq<ItemDef>, items: seq<ItemId>, k: nat, c: ItemId)
    requires k < |items|
    ensures PartsOf(defs, items, c) == PartsOf(defs, items[..k] + items[k + 1..], c) + Parts(defs, items[k], c)
  {
    assert items == items[..k] + [items[k]] + items[k + 1..];
    PartsAppend(defs, items[..k] + [items[k]], items[k + 1..], c);
    PartsAppend(defs, items[..k], [items[k]], c);
    PartsAppend(defs, items[..k], items[k + 1..], c);
    PartsOfOne(defs, items[k], c);
  }

  lemma PartsUpdate(defs: seq<ItemDef>, items: seq<ItemId>, k: nat, item: ItemId, c: ItemId)
    requires k < |items|
    ensures PartsOf(defs, items[k := item], c) + Parts(defs, items[k], c) == PartsOf(defs, items, c) + Parts(defs, item, c)
  {
    PartsErase(defs, items, k, c);
    PartsErase(defs, items[k := item], k, c);
    assert items[k := item][..k] + items[k := item][k + 1..] == items[..k] + items[k + 1..];
  }
}
