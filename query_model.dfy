/**
 * The query graph model of the SQL planner: a table of boxes (query
 * operators) and quantifiers (edges between boxes), each with an id drawn from
 * its own counter, and the generator that turns a parsed query into boxes.
 *
 * The generator is at an early stage: it creates one `Select` box per query
 * and per common table expression, and rejects any body that is not a plain
 * `SELECT`.
 */
module QueryModel {
  import opened Results

  type BoxId = nat
  type QuantifierId = nat

  /** A scalar expression inside a box: a column of a quantifier's input box, or of a base table. */
  datatype Expr =
    | ColumnReference(quantifierId: QuantifierId, position: nat)
    | BaseColumn(position: nat)

  datatype Column = Column(expr: Expr, alias: Option<string>)

  datatype Select = Select(predicates: seq<Expr>, orderKey: Option<seq<Expr>>,
                           limit: Option<Expr>, offset: Option<Expr>)

  /** `Select::new`: no predicates, no order key, no limit, no offset. */
  const NewSelect := Select([], None, None, None)

  datatype BoxType =
    | BaseTable
    | Except
    | Grouping(key: seq<Expr>)
    | Intersect
    | OuterJoin(predicates: seq<Expr>)
    | SelectBox(select: Select)
    | TableFunction(parameters: seq<Expr>)
    | Union
    | Values(rows: seq<seq<Expr>>)

  datatype QueryBox = QueryBox(id: BoxId, boxType: BoxType, columns: seq<Column>,
                               quantifiers: set<QuantifierId>, rangingQuantifiers: set<QuantifierId>)

  datatype QuantifierType = All | Any | Existential | Foreach | PreservedForeach | ScalarQuantifier

  datatype Quantifier = Quantifier(id: QuantifierId, quantifierType: QuantifierType,
                                   inputBox: BoxId, parentBox: BoxId, alias: Option<string>)

  /** The box `make_box` stores: the given type, no columns, no quantifiers either way. */
  function EmptyBox(id: BoxId, boxType: BoxType): QueryBox
  {
    QueryBox(id, boxType, [], {}, {})
  }

  /** Fresh `Select` boxes under every id in `[lo, hi)`. */
  function SelectBoxes(lo: nat, hi: nat): (m: map<BoxId, QueryBox>)
    ensures forall id :: id in m <==> lo <= id < hi
  {
    map id | lo <= id < hi :: EmptyBox(id, SelectBox(NewSelect))
  }

  class Model {
    var topBox: BoxId
    var boxes: map<BoxId, QueryBox>
    var nextBoxId: nat
    var quantifiers: map<QuantifierId, Quantifier>
    var nextQuantifierId: nat

    /** Every stored box and quantifier sits under its own id, and every id was handed out already. */
    ghost predicate Valid()
      reads this
    {
      && (forall id :: id in boxes ==> id < nextBoxId && boxes[id].id == id)
      && (forall id :: id in quantifiers ==> id < nextQuantifierId && quantifiers[id].id == id)
    }

    /** `Model::new`. */
    constructor()
      ensures Valid()
      ensures topBox == 0 && boxes == map[] && nextBoxId == 0
      ensures quantifiers == map[] && nextQuantifierId == 0
    {
      topBox := 0;
      boxes := map[];
      nextBoxId := 0;
      quantifiers := map[];
      nextQuantifierId := 0;
    }

    /** `make_box`: hands out the next id and stores an empty box of the given type under it. */
    method MakeBox(boxType: BoxType) returns (id: BoxId)
      requires Valid()
      modifies this
      ensures Valid()
      ensures id == old(nextBoxId) && nextBoxId == id + 1
      ensures id !in old(boxes)
      ensures boxes == old(boxes)[id := EmptyBox(id, boxType)]
      ensures topBox == old(topBox) && quantifiers == old(quantifiers)
      ensures nextQuantifierId == old(nextQuantifierId)
    {
      id := nextBoxId;
      nextBoxId := nextBoxId + 1;
      boxes := boxes[id := EmptyBox(id, boxType)];
    }

    /** `make_select_box`. */
    method MakeSelectBox() returns (id: BoxId)
      requires Valid()
      modifies this
      ensures Valid()
      ensures id == old(nextBoxId) && nextBoxId == id + 1
      ensures boxes == old(boxes) + SelectBoxes(id, id + 1)
      ensures topBox == old(topBox) && quantifiers == old(quantifiers)
      ensures nextQuantifierId == old(nextQuantifierId)
    {
      id := MakeBox(SelectBox(NewSelect));
      assert boxes == old(boxes) + SelectBoxes(id, id + 1);
    }

    /** `get_box`: the id must be present; the box found carries that id. */
    function GetBox(id: BoxId): (b: QueryBox)
      reads this
      requires id in boxes
      ensures Valid() ==> b.id == id
    {
      boxes[id]
    }
  }

  // ---------------------------------------------------------------------
  // Column references

  /** The quantifier exists, its input box exists and has a column at `position`. */
  predicate Resolves(ref: Expr, boxes: map<BoxId, QueryBox>, quantifiers: map<QuantifierId, Quantifier>)
    requires ref.ColumnReference?
  {
    && ref.quantifierId in quantifiers
    && quantifiers[ref.quantifierId].inputBox in boxes
    && ref.position < |boxes[quantifiers[ref.quantifierId].inputBox].columns|
  }

  /** `ColumnReference::dereference`, over the model's box and quantifier tables. */
  function Dereference(ref: Expr, boxes: map<BoxId, QueryBox>, quantifiers: map<QuantifierId, Quantifier>): (e: Expr)
    requires ref.ColumnReference? && Resolves(ref, boxes, quantifiers)
    ensures exists c :: c in boxes[quantifiers[ref.quantifierId].inputBox].columns && c.expr == e
  {
    boxes[quantifiers[ref.quantifierId].inputBox].columns[ref.position].expr
  }

  /**
   * Adding a box under an unused id keeps every reference resolving, to the
   * same expression: `make_box` never disturbs what the model already means.
   */
  lemma DereferenceKeptByNewBox(ref: Expr, boxes: map<BoxId, QueryBox>, quantifiers: map<QuantifierId, Quantifier>,
                                id: BoxId, b: QueryBox)
    requires ref.ColumnReference? && Resolves(ref, boxes, quantifiers) && id !in boxes
    ensures Resolves(ref, boxes[id := b], quantifiers)
    ensures Dereference(ref, boxes[id := b], quantifiers) == Dereference(ref, boxes, quantifiers)
  {
  }

  /**
   * Adding a quantifier under an unused id keeps every reference resolving,
   * to the same expression.
   */
  lemma DereferenceKeptByNewQuantifier(ref: Expr, boxes: map<BoxId, QueryBox>, quantifiers: map<QuantifierId, Quantifier>,
                                       id: QuantifierId, q: Quantifier)
    requires ref.ColumnReference? && Resolves(ref, boxes, quantifiers) && id !in quantifiers
    ensures Resolves(ref, boxes, quantifiers[id := q])
    ensures Dereference(ref, boxes, quantifiers[id := q]) == Dereference(ref, boxes, quantifiers)
  {
  }

  /**
   * A box as `make_box` stores it has no columns yet, so no reference through
   * a quantifier ranging over it resolves.
   */
  lemma FreshBoxHasNoColumns(ref: Expr, boxes: map<BoxId, QueryBox>, quantifiers: map<QuantifierId, Quantifier>,
                             boxType: BoxType)
    requires ref.ColumnReference? && ref.quantifierId in quantifiers
    requires var b := quantifiers[ref.quantifierId].inputBox; b in boxes && boxes[b] == EmptyBox(b, boxType)
    ensures !Resolves(ref, boxes, quantifiers)
  {
  }

  /**
   * Quantifiers ranging over the same box see the same columns: references at
   * the same position through either dereference to the same expression.
   */
  lemma SharedInputBoxSameColumn(r1: Expr, r2: Expr, boxes: map<BoxId, QueryBox>,
                                 quantifiers: map<QuantifierId, Quantifier>)
    requires r1.ColumnReference? && r2.ColumnReference?
    requires Resolves(r1, boxes, quantifiers) && r2.quantifierId in quantifiers
    requires quantifiers[r1.quantifierId].inputBox == quantifiers[r2.quantifierId].inputBox
    requires r1.position == r2.position
    ensures Resolves(r2, boxes, quantifiers)
    ensures Dereference(r1, boxes, quantifiers) == Dereference(r2, boxes, quantifiers)
  {
  }

  // ---------------------------------------------------------------------
  // The generator over an abstract syntax tree

  /** The body of a query: a plain `SELECT` with its `FROM` list, or anything else. */
  datatype SetExpr = SelectBody(from: seq<string>) | OtherBody

  datatype Query = Query(ctes: seq<Cte>, body: SetExpr)

  datatype Cte = Cte(alias: string, query: Query)

  const Unsupported: string := "@todo unsupported stuff"

  /** `NameResolutionContext`: the owner box and the names visible while processing a query. */
  datatype Context = Context(ownerBox: BoxId, quantifiers: seq<QuantifierId>, ctes: map<string, BoxId>,
                             parent: Option<Context>, sibling: Option<Context>, isLateral: bool)

  /** `NameResolutionContext::new`. */
  function NewContext(ownerBox: BoxId, parent: Option<Context>): Context
  {
    Context(ownerBox, [], map[], parent, None, false)
  }

  /** What processing a query returns, and the next free box id afterwards. */
  datatype Outcome<T> = Outcome(result: Result<T, string>, next: nat)

  /**
   * `process_query` as a function of the next free box id: its own box first,
   * then each common table expression in turn, then the body.
   */
  function Process(q: Query, next: nat): (o: Outcome<BoxId>)
    decreases q, 1
    ensures o.next > next
  {
    var ctes := ProcessCtes(q.ctes, next + 1);
    if ctes.result.Failure? then Outcome(Failure(ctes.result.error), ctes.next)
    else if q.body.SelectBody? then Outcome(Success(next), ctes.next)
    else Outcome(Failure(Unsupported), ctes.next)
  }

  /** The box ids of the common table expressions, in order, stopping at the first failure. */
  function ProcessCtes(ctes: seq<Cte>, next: nat): (o: Outcome<seq<BoxId>>)
    decreases ctes, 0
    ensures o.next >= next
    ensures o.result.Success? ==> |o.result.value| == |ctes|
  {
    if ctes == [] then Outcome(Success([]), next)
    else
      var before := ProcessCtes(ctes[..|ctes| - 1], next);
      if before.result.Failure? then before
      else
        var last := Process(ctes[|ctes| - 1].query, before.next);
        if last.result.Failure? then Outcome(Failure(last.result.error), last.next)
        else Outcome(Success(before.result.value + [last.result.value]), last.next)
  }

  /** The context after binding each alias to its box id, later aliases overriding earlier ones. */
  function Bind(m: map<string, BoxId>, ctes: seq<Cte>, ids: seq<BoxId>): map<string, BoxId>
    requires |ids| == |ctes|
  {
    if ctes == [] then m
    else Bind(m, ctes[..|ctes| - 1], ids[..|ids| - 1])[ctes[|ctes| - 1].alias := ids[|ids| - 1]]
  }

  /** `process_query`. */
  method ProcessQuery(model: Model, query: Query, parent: Option<Context>) returns (res: Result<BoxId, string>)
    requires model.Valid()
    modifies model
    ensures model.Valid()
    ensures res == Process(query, old(model.nextBoxId)).result
    ensures model.nextBoxId == Process(query, old(model.nextBoxId)).next > old(model.nextBoxId)
    ensures model.boxes == old(model.boxes) + SelectBoxes(old(model.nextBoxId), model.nextBoxId)
    ensures model.topBox == old(model.topBox) && model.quantifiers == old(model.quantifiers)
    ensures model.nextQuantifierId == old(model.nextQuantifierId)
    decreases query, 1
  {
    var boxId := model.MakeSelectBox();
    var context := NewContext(boxId, parent);
    var ctes := AddCtesToContext(model, query.ctes, context);
    SelectBoxesJoin(old(model.boxes), old(model.nextBoxId), boxId + 1, model.nextBoxId);
    if ctes.Failure? {
      res := Failure(ctes.error);
    } else {
      var body := ProcessQueryBody(query.body, boxId, ctes.value);
      res := if body.Failure? then Failure(body.error) else Success(boxId);
    }
  }

  /**
   * `add_ctes_to_context`: each common table expression becomes its own box,
   * processed with the enclosing query's parent context, and its alias is
   * bound to that box.
   */
  method AddCtesToContext(model: Model, ctes: seq<Cte>, context: Context) returns (res: Result<Context, string>)
    requires model.Valid()
    modifies model
    ensures model.Valid()
    ensures var o := ProcessCtes(ctes, old(model.nextBoxId));
      && model.nextBoxId == o.next
      && (res.Failure? <==> o.result.Failure?)
      && (res.Failure? ==> res.error == o.result.error)
      && (res.Success? ==> res.value == context.(ctes := Bind(context.ctes, ctes, o.result.value)))
    ensures model.boxes == old(model.boxes) + SelectBoxes(old(model.nextBoxId), model.nextBoxId)
    ensures model.topBox == old(model.topBox) && model.quantifiers == old(model.quantifiers)
    ensures model.nextQuantifierId == old(model.nextQuantifierId)
    decreases ctes, 0
  {
    var current := context;
    var ids: seq<BoxId> := [];
    for i := 0 to |ctes|
      invariant model.Valid()
      invariant ProcessCtes(ctes[..i], old(model.nextBoxId)) == Outcome(Success(ids), model.nextBoxId)
      invariant current == context.(ctes := Bind(context.ctes, ctes[..i], ids))
      invariant model.boxes == old(model.boxes) + SelectBoxes(old(model.nextBoxId), model.nextBoxId)
      invariant model.topBox == old(model.topBox) && model.quantifiers == old(model.quantifiers)
      invariant model.nextQuantifierId == old(model.nextQuantifierId)
    {
      var before := model.nextBoxId;
      assert ctes[..i + 1][..i] == ctes[..i];
      var cteId := ProcessQuery(model, ctes[i].query, context.parent);
      SelectBoxesJoin(old(model.boxes), old(model.nextBoxId), before, model.nextBoxId);
      if cteId.Failure? {
        ProcessCtesPrefixFails(ctes, i + 1, old(model.nextBoxId));
        return Failure(cteId.error);
      }
      assert (ids + [cteId.value])[..i] == ids;
      current := current.(ctes := current.ctes[ctes[i].alias := cteId.value]);
      ids := ids + [cteId.value];
    }
    assert ctes[..|ctes|] == ctes;
    return Success(current);
  }

  /** `process_query_body`: only a plain `SELECT` is supported. */
  method ProcessQueryBody(body: SetExpr, queryBox: BoxId, context: Context) returns (res: Result<(), string>)
    ensures res.Success? <==> body.SelectBody?
    ensures res.Failure? ==> res.error == Unsupported
  {
    match body
    case SelectBody(from) =>
      res := ProcessSelect(from, queryBox, context);
    case OtherBody =>
      res := Failure(Unsupported);
  }

  /** `process_select`: only the `FROM` clause is looked at so far. */
  method ProcessSelect(from: seq<string>, queryBox: BoxId, context: Context) returns (res: Result<(), string>)
    ensures res.Success?
  {
    res := ProcessFromClause(from, queryBox, context);
  }

  /** `process_from_clause`: accepts every `FROM` list and adds nothing to the model. */
  method ProcessFromClause(from: seq<string>, queryBox: BoxId, context: Context) returns (res: Result<(), string>)
    ensures res.Success?
  {
    res := Success(());
  }

  /** `process_top_level_query`: the query's own box becomes the top box. */
  method ProcessTopLevelQuery(model: Model, query: Query) returns (res: Result<(), string>)
    requires model.Valid()
    modifies model
    ensures model.Valid()
    ensures var o := Process(query, old(model.nextBoxId));
      && (res.Success? <==> o.result.Success?)
      && model.topBox == (if o.result.Success? then o.result.value else old(model.topBox))
      && model.nextBoxId == o.next
    ensures model.boxes == old(model.boxes) + SelectBoxes(old(model.nextBoxId), model.nextBoxId)
  {
    var topBox := ProcessQuery(model, query, None);
    if topBox.Failure? {
      return Failure(topBox.error);
    }
    model.topBox := topBox.value;
    return Success(());
  }

  /** `ModelGenerator::generate`: a fresh model holding one `Select` box per query, the outermost one on top. */
  method Generate(query: Query) returns (res: Result<Model, string>)
    ensures res.Success? <==> AllSelect(query)
    ensures res.Success? ==>
      res.value.Valid() && res.value.topBox == 0 && res.value.boxes == SelectBoxes(0, QueryCount(query))
  {
    var model := new Model();
    var top := ProcessTopLevelQuery(model, query);
    ProcessSucceedsIff(query, 0);
    assert map[] + SelectBoxes(0, model.nextBoxId) == SelectBoxes(0, model.nextBoxId);
    if top.Failure? {
      return Failure(top.error);
    }
    return Success(model);
  }

  // ---------------------------------------------------------------------
  // What the generator guarantees

  /** Boxes added over `[lo, mid)` and then over `[mid, hi)` are the boxes added over `[lo, hi)`. */
  lemma SelectBoxesJoin(boxes: map<BoxId, QueryBox>, lo: nat, mid: nat, hi: nat)
    requires lo <= mid <= hi
    ensures boxes + SelectBoxes(lo, mid) + SelectBoxes(mid, hi) == boxes + SelectBoxes(lo, hi)
  {
    var left := boxes + SelectBoxes(lo, mid) + SelectBoxes(mid, hi);
    var right := boxes + SelectBoxes(lo, hi);
    assert left.Keys == right.Keys;
    forall id | id in left.Keys
      ensures left[id] == right[id]
    {
    }
  }

  /** A failure among the first `i` common table expressions is a failure of all of them. */
  lemma {:induction false} ProcessCtesPrefixFails(ctes: seq<Cte>, i: nat, next: nat)
    requires i <= |ctes| && ProcessCtes(ctes[..i], next).result.Failure?
    ensures ProcessCtes(ctes, next) == ProcessCtes(ctes[..i], next)
    decreases |ctes|
  {
    if i < |ctes| {
      var init := ctes[..|ctes| - 1];
      assert init[..i] == ctes[..i];
      ProcessCtesPrefixFails(init, i, next);
    } else {
      assert ctes[..i] == ctes;
    }
  }

  /** The number of queries in a query: itself and, recursively, its common table expressions. */
  function QueryCount(q: Query): nat
    decreases q, 1
  {
    1 + CtesCount(q.ctes)
  }

  function CtesCount(ctes: seq<Cte>): nat
    decreases ctes, 0
  {
    if ctes == [] then 0 else CtesCount(ctes[..|ctes| - 1]) + QueryCount(ctes[|ctes| - 1].query)
  }

  /** Every body in the query, its common table expressions included, is a plain `SELECT`. */
  predicate AllSelect(q: Query)
    decreases q, 1
  {
    q.body.SelectBody? && AllCtesSelect(q.ctes)
  }

  predicate AllCtesSelect(ctes: seq<Cte>)
    decreases ctes, 0
  {
    ctes == [] || (AllCtesSelect(ctes[..|ctes| - 1]) && AllSelect(ctes[|ctes| - 1].query))
  }

  /**
   * A query is accepted exactly when every body in it is a plain `SELECT`;
   * then its box is the first id handed out, and it uses one box per query.
   */
  lemma {:induction false} ProcessSucceedsIff(q: Query, next: nat)
    ensures Process(q, next).result.Success? <==> AllSelect(q)
    ensures AllSelect(q) ==> Process(q, next).result.value == next && Process(q, next).next == next + QueryCount(q)
    decreases q, 1
  {
    CtesSucceedIff(q.ctes, next + 1);
  }

  lemma {:induction false} CtesSucceedIff(ctes: seq<Cte>, next: nat)
    ensures ProcessCtes(ctes, next).result.Success? <==> AllCtesSelect(ctes)
    ensures AllCtesSelect(ctes) ==> ProcessCtes(ctes, next).next == next + CtesCount(ctes)
    decreases ctes, 0
  {
    if ctes != [] {
      var init := ctes[..|ctes| - 1];
      CtesSucceedIff(init, next);
      ProcessSucceedsIff(ctes[|ctes| - 1].query, ProcessCtes(init, next).next);
    }
  }

  /**
   * Each common table expression gets a box of its own: the ids come out
   * strictly increasing, all at or after `next` and before the next free id.
   */
  lemma {:induction false} CteIdsFresh(ctes: seq<Cte>, next: nat)
    requires ProcessCtes(ctes, next).result.Success?
    ensures var o := ProcessCtes(ctes, next); var ids := o.result.value;
      && (forall j :: 0 <= j < |ids| ==> next <= ids[j] < o.next)
      && (forall j, k :: 0 <= j < k < |ids| ==> ids[j] < ids[k])
    decreases ctes
  {
    if ctes != [] {
      var init := ctes[..|ctes| - 1];
      var before := ProcessCtes(init, next);
      var last := Process(ctes[|ctes| - 1].query, before.next);
      CteIdsFresh(init, next);
      ProcessSucceedsIff(ctes[|ctes| - 1].query, before.next);
      assert last.result.value == before.next;
      assert ProcessCtes(ctes, next).result.value == before.result.value + [before.next];
    }
  }

  /** The query's own box comes before the boxes of its common table expressions, so it is never one of them. */
  lemma OwnBoxComesFirst(q: Query, next: nat)
    requires Process(q, next).result.Success?
    ensures var ids := ProcessCtes(q.ctes, next + 1).result.value;
      forall j :: 0 <= j < |ids| ==> Process(q, next).result.value < ids[j]
  {
    CteIdsFresh(q.ctes, next + 1);
  }
}
