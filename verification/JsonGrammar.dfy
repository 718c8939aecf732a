// The grammar of a document (section 2 of RFC 8259, with comments), as syntax trees. A tree keeps everything
// that is written, gaps and spellings included, so a text and its tree determine each other; what a tree
// means is a value.
module JsonGrammar {
  import opened Wrappers
  import opened JsonNumber
  import opened JsonString
  import opened JsonTrivia

  const MAX_DEPTH := 64

  type Gap = seq<Trivium>

  datatype Node =
    | NullNode
    | BoolNode(b: bool)
    | NumberNode(l: Literal)
    | StringNode(pieces: seq<Piece>)
    | ListNode(object_: bool, gap: Gap, items: seq<Item>)

  // An element of an array, or a member of an object with its key.
  datatype Item = Item(before: Gap, key: Option<Key>, node: Node, after: Gap)

  datatype Key = Key(pieces: seq<Piece>, mid: Gap, front: Gap)

  function Open(object_: bool): char {
    if object_ then '{' else '['
  }

  function Close(object_: bool): char {
    if object_ then '}' else ']'
  }

  // ---- Texts ---------------------------------------------------------------------------------------

  function NodeThen(n: Node, rest: string): string
    decreases n
  {
    match n
    case NullNode => "null" + rest
    case BoolNode(b) => (if b then "true" else "false") + rest
    case NumberNode(l) => LiteralThen(l, rest)
    case StringNode(pieces) => StringThen(pieces, rest)
    case ListNode(o, gap, items) =>
      [Open(o)] + if items == [] then GapThen(gap, [Close(o)] + rest) else ItemsThen(items, o, rest)
  }

  function ItemThen(it: Item, rest: string): string
    decreases it
  {
    GapThen(it.before, KeyThen(it.key, NodeThen(it.node, GapThen(it.after, rest))))
  }

  function KeyThen(key: Option<Key>, rest: string): string {
    match key
    case None => rest
    case Some(k) => StringThen(k.pieces, GapThen(k.mid, ":" + GapThen(k.front, rest)))
  }

  function ItemsThen(items: seq<Item>, o: bool, rest: string): string
    decreases items
  {
    if items == [] then rest
    else ItemThen(items[0], if |items| == 1 then [Close(o)] + rest else "," + ItemsThen(items[1..], o, rest))
  }

  // ---- Well-formedness -----------------------------------------------------------------------------

  // A word does not run on into an identifier.
  predicate WordEnds(rest: string) {
    rest == "" || !(('a' <= rest[0] <= 'z') || ('A' <= rest[0] <= 'Z') || IsDigit(rest[0]) || rest[0] == '_')
  }

  predicate NodeOk(n: Node, rest: string)
    decreases n
  {
    match n
    case NullNode => WordEnds(rest)
    case BoolNode(b) => WordEnds(rest)
    case NumberNode(l) => LiteralOk(l) && Ends(l, rest)
    case StringNode(pieces) => AllOk(pieces)
    case ListNode(o, gap, items) => if items == [] then GapOk(gap, [Close(o)] + rest) else gap == [] && ItemsOk(items, o, rest)
  }

  predicate ItemOk(it: Item, o: bool, rest: string)
    decreases it
  {
    && it.key.Some? == o && GapOk(it.after, rest) && NodeOk(it.node, GapThen(it.after, rest))
    && KeyOk(it.key, NodeThen(it.node, GapThen(it.after, rest)))
    && GapOk(it.before, KeyThen(it.key, NodeThen(it.node, GapThen(it.after, rest))))
  }

  predicate KeyOk(key: Option<Key>, rest: string) {
    key.Some? ==> AllOk(key.value.pieces) && GapOk(key.value.front, rest) && GapOk(key.value.mid, ":" + GapThen(key.value.front, rest))
  }

  predicate ItemsOk(items: seq<Item>, o: bool, rest: string)
    decreases items
  {
    items != [] && if |items| == 1 then ItemOk(items[0], o, [Close(o)] + rest)
                   else ItemOk(items[0], o, "," + ItemsThen(items[1..], o, rest)) && ItemsOk(items[1..], o, rest)
  }

  datatype Document = Document(before: Gap, node: Node, after: Gap)

  function DocumentText(doc: Document): string {
    GapThen(doc.before, NodeThen(doc.node, GapThen(doc.after, "")))
  }

  predicate DocumentOk(doc: Document) {
    GapOk(doc.before, NodeThen(doc.node, GapThen(doc.after, ""))) && NodeOk(doc.node, GapThen(doc.after, "")) && GapOk(doc.after, "")
  }

  // ---- Limits --------------------------------------------------------------------------------------

  // Nesting of at most 64, numbers that have room, and no key twice.
  predicate NodeFits(n: Node, depth: nat)
    decreases n
  {
    && depth <= MAX_DEPTH
    && (n.NumberNode? && LiteralOk(n.l) ==> WithinLimits(n.l))
    && (n.ListNode? ==> ItemsFit(n.items, depth + 1) && (n.object_ ==> KeysDiffer(n.items)))
  }

  predicate ItemsFit(items: seq<Item>, depth: nat)
    decreases items
  {
    forall k | 0 <= k < |items| :: NodeFits(items[k].node, depth)
  }

  predicate HasKey(it: Item) {
    it.key.Some? && AllOk(it.key.value.pieces)
  }

  predicate SameKey(a: Item, b: Item) {
    HasKey(a) && HasKey(b) && Meanings(a.key.value.pieces) == Meanings(b.key.value.pieces)
  }

  predicate KeysDiffer(items: seq<Item>) {
    forall i, j | 0 <= i < j < |items| :: !SameKey(items[i], items[j])
  }

  // ---- Values --------------------------------------------------------------------------------------

  datatype Value = Null | Bool(b: bool) | Number(d: Decimal) | String(s: string) | Array(elements: seq<Value>) | Object(keys: seq<string>, members: seq<Value>)

  ghost predicate Means(v: Value, n: Node)
    decreases n
  {
    match n
    case NullNode => v == Null
    case BoolNode(b) => v == Bool(b)
    case NumberNode(l) => LiteralOk(l) && v.Number? && Denotes(v.d, l) && Canonical(v.d)
    case StringNode(pieces) => AllOk(pieces) && v == String(Meanings(pieces))
    case ListNode(o, gap, items) =>
      if o then v.Object? && AllMean(v.members, items) && KeysMean(v.keys, items) else v.Array? && AllMean(v.elements, items)
  }

  ghost predicate AllMean(values: seq<Value>, items: seq<Item>)
    decreases items
  {
    |values| == |items| && forall k | 0 <= k < |items| :: Means(values[k], items[k].node)
  }

  ghost predicate KeysMean(keys: seq<string>, items: seq<Item>) {
    |keys| == |items| && forall k | 0 <= k < |items| :: HasKey(items[k]) && keys[k] == Meanings(items[k].key.value.pieces)
  }

  // ---- Reading a list item by item -----------------------------------------------------------------

  // Items that are all followed by a comma.
  function CommaThen(its: seq<Item>, rest: string): string {
    if its == [] then rest else ItemThen(its[0], "," + CommaThen(its[1..], rest))
  }

  predicate CommaOk(its: seq<Item>, o: bool, rest: string) {
    its == [] || (ItemOk(its[0], o, "," + CommaThen(its[1..], rest)) && CommaOk(its[1..], o, rest))
  }

  lemma {:induction false} CommaSnoc(its: seq<Item>, it: Item, o: bool, rest: string)
    requires CommaOk(its, o, ItemThen(it, "," + rest)) && ItemOk(it, o, "," + rest)
    ensures CommaThen(its + [it], rest) == CommaThen(its, ItemThen(it, "," + rest)) && CommaOk(its + [it], o, rest)
  {
    hide ItemOk, ItemThen;
    if its == [] {
      assert its + [it] == [it] && [it][1..] == [] && CommaOk([], o, rest) && CommaThen([], rest) == rest;
    } else {
      CommaSnoc(its[1..], it, o, rest);
      assert (its + [it])[1..] == its[1..] + [it] && (its + [it])[0] == its[0];
    }
  }

  lemma {:induction false} CommaClose(its: seq<Item>, it: Item, o: bool, rest: string)
    requires CommaOk(its, o, ItemThen(it, [Close(o)] + rest)) && ItemOk(it, o, [Close(o)] + rest)
    ensures ItemsThen(its + [it], o, rest) == CommaThen(its, ItemThen(it, [Close(o)] + rest)) && ItemsOk(its + [it], o, rest)
  {
    hide ItemOk, ItemThen;
    if its == [] {
      assert its + [it] == [it];
    } else {
      CommaClose(its[1..], it, o, rest);
      assert (its + [it])[1..] == its[1..] + [it] && (its + [it])[0] == its[0];
    }
  }

  predicate Delimited(tail: string, o: bool) {
    tail != "" && (tail[0] == ',' || tail[0] == Close(o))
  }

  // Whatever list was written at `start`, its is its beginning and the rest of it comes next.
  ghost predicate InList(start: string, o: bool, its: seq<Item>, now: string) {
    forall items0: seq<Item>, rest0: string :: ItemsOk(items0, o, rest0) && start == ItemsThen(items0, o, rest0) ==>
      |its| < |items0| && its == items0[..|its|] && now == ItemsThen(items0[|its|..], o, rest0) && ItemsOk(items0[|its|..], o, rest0)
  }

  function Tail(items: seq<Item>, k: nat, o: bool, rest: string): string
    requires k < |items|
  {
    if k == |items| - 1 then [Close(o)] + rest else "," + ItemsThen(items[k + 1..], o, rest)
  }

  // One way to read the next item, at most.
  ghost predicate ReadsItem(now: string, o: bool, it: Item, next: string) {
    forall it0: Item, tail0: string :: ItemOk(it0, o, tail0) && Delimited(tail0, o) && now == ItemThen(it0, tail0) ==> it == it0 && next == tail0
  }

  lemma InListStart(start: string, o: bool)
    ensures InList(start, o, [], start)
  {
    forall items0: seq<Item>, rest0: string | ItemsOk(items0, o, rest0) && start == ItemsThen(items0, o, rest0)
      ensures 0 < |items0| && start == ItemsThen(items0[0..], o, rest0) && ItemsOk(items0[0..], o, rest0)
    {
      assert items0[0..] == items0;
    }
  }

  lemma InListNext(start: string, o: bool, its: seq<Item>, now: string, items0: seq<Item>, rest0: string)
    requires InList(start, o, its, now) && ItemsOk(items0, o, rest0) && start == ItemsThen(items0, o, rest0)
    ensures |its| < |items0| && its == items0[..|its|]
    ensures ItemOk(items0[|its|], o, Tail(items0, |its|, o, rest0)) && Delimited(Tail(items0, |its|, o, rest0), o)
    ensures now == ItemThen(items0[|its|], Tail(items0, |its|, o, rest0))
    ensures |its| + 1 < |items0| ==> ItemsOk(items0[|its| + 1..], o, rest0)
  {
    hide ItemOk, ItemThen;
    var later := items0[|its|..];
    assert later[0] == items0[|its|] && later[1..] == items0[|its| + 1..];
  }

  lemma InListStep(start: string, o: bool, its: seq<Item>, now: string, it: Item, next: string)
    requires InList(start, o, its, now) && ReadsItem(now, o, it, next) && next != "" && next[0] == ','
    ensures InList(start, o, its + [it], next[1..])
  {
    hide ItemOk, ItemThen, ItemsOk, ItemsThen;
    forall items0: seq<Item>, rest0: string | ItemsOk(items0, o, rest0) && start == ItemsThen(items0, o, rest0)
      ensures |its| + 1 < |items0| && its + [it] == items0[..|its| + 1] && next[1..] == ItemsThen(items0[|its| + 1..], o, rest0)
              && ItemsOk(items0[|its| + 1..], o, rest0)
    {
      InListNext(start, o, its, now, items0, rest0);
      assert it == items0[|its|] && next == Tail(items0, |its|, o, rest0);
    }
  }

  lemma InListEnd(start: string, o: bool, its: seq<Item>, now: string, it: Item, next: string)
    requires InList(start, o, its, now) && ReadsItem(now, o, it, next) && next != "" && next[0] == Close(o)
    ensures forall items0: seq<Item>, rest0: string :: ItemsOk(items0, o, rest0) && start == ItemsThen(items0, o, rest0) ==>
              items0 == its + [it] && rest0 == next[1..]
  {
    hide ItemOk, ItemThen, ItemsOk, ItemsThen;
    forall items0: seq<Item>, rest0: string | ItemsOk(items0, o, rest0) && start == ItemsThen(items0, o, rest0)
      ensures items0 == its + [it] && rest0 == next[1..]
    {
      InListNext(start, o, its, now, items0, rest0);
      assert it == items0[|its|] && next == Tail(items0, |its|, o, rest0);
      assert |its| == |items0| - 1;
      assert items0 == items0[..|its|] + [items0[|its|]];
    }
  }

  // The next item has room and its key is new.
  ghost predicate Admitted(its: seq<Item>, it: Item, o: bool, depth: nat) {
    NodeFits(it.node, depth) && (o ==> forall k | 0 <= k < |its| :: !SameKey(its[k], it))
  }

  ghost predicate ListFits(items: seq<Item>, o: bool, depth: nat) {
    ItemsFit(items, depth) && (o ==> KeysDiffer(items))
  }

  lemma ListFitsSnoc(its: seq<Item>, it: Item, o: bool, depth: nat)
    requires ListFits(its, o, depth) && Admitted(its, it, o, depth)
    ensures ListFits(its + [it], o, depth)
  {
    hide NodeFits, SameKey;
  }

  // If whatever comes next is not admitted, no list that was written fits.
  lemma InListNever(start: string, o: bool, its: seq<Item>, now: string, depth: nat)
    requires InList(start, o, its, now)
    requires forall it0: Item, tail0: string :: ItemOk(it0, o, tail0) && Delimited(tail0, o) && now == ItemThen(it0, tail0) ==> !Admitted(its, it0, o, depth)
    ensures forall items0: seq<Item>, rest0: string :: ItemsOk(items0, o, rest0) && start == ItemsThen(items0, o, rest0) ==> !ListFits(items0, o, depth)
  {
    hide ItemOk, ItemThen, ItemsOk, ItemsThen, NodeFits, SameKey;
    forall items0: seq<Item>, rest0: string | ItemsOk(items0, o, rest0) && start == ItemsThen(items0, o, rest0)
      ensures !ListFits(items0, o, depth)
    {
      InListNext(start, o, its, now, items0, rest0);
      assert !Admitted(its, items0[|its|], o, depth);
      assert forall k | 0 <= k < |its| :: its[k] == items0[k];
    }
  }

  // ---- What a node begins with ---------------------------------------------------------------------

  lemma {:induction false} NodeBegins(n: Node, rest: string)
    requires NodeOk(n, rest)
    ensures var t := NodeThen(n, rest);
            t != "" && !TriviumNext(t) && (t[0] == '"' <==> n.StringNode?) && (t[0] == '{' <==> n.ListNode? && n.object_)
            && (t[0] == '[' <==> n.ListNode? && !n.object_) && (t[0] == '-' || IsDigit(t[0]) <==> n.NumberNode?) && t[0] != ']' && t[0] != '}'
  {
    hide GapThen, GapOk, ItemsThen, ItemsOk, PiecesThen, FractionThen, ExponentThen, Ends, AllOk;
    match n
    case NullNode => assert NodeThen(n, rest)[0] == 'n';
    case BoolNode(b) => assert NodeThen(n, rest)[0] == if b then 't' else 'f';
    case NumberNode(l) => assert NodeThen(n, rest)[0] == if l.negative then '-' else l.whole[0];
    case StringNode(pieces) => assert NodeThen(n, rest)[0] == '"';
    case ListNode(o, gap, items) => assert NodeThen(n, rest)[0] == Open(o);
  }

  lemma ItemBegins(it: Item, o: bool, rest: string)
    requires ItemOk(it, o, rest)
    ensures !TriviumNext(KeyThen(it.key, NodeThen(it.node, GapThen(it.after, rest)))) && !TriviumNext(NodeThen(it.node, GapThen(it.after, rest)))
  {
    hide GapThen, GapOk, NodeThen, NodeOk, PiecesThen;
    NodeBegins(it.node, GapThen(it.after, rest));
  }
}
