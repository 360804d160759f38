/** The category routes of the Express backend (src/routes/categories.js). Creating,
    updating and deleting a category sit behind isAdmin. */
module NodeCategories {
  import opened Options
  import opened Roles
  import opened Tables
  import opened Ordering
  import opened NodeSchema
  import opened NodeHttp
  import opened NodeMiddleware

  /** GET /: every category, ordered by display order (NULL first) and then id. */
  method ListCategories(db: Db) returns (resp: Response)
    ensures resp.status == 200 && resp.body.CategoryList?
    ensures SortedBy(resp.body.categories, CategoryBefore)
    ensures multiset(resp.body.categories) == multiset(db.categories)
  {
    OrdersArePreorders();
    resp := Response(200, CategoryList(SortBy(db.categories, CategoryBefore)));
  }

  /** GET /:id: the category and its topics, pinned first and then most recently updated
      first; topics whose author row is gone are dropped by the JOIN. */
  method GetCategory(db: Db, id: int) returns (resp: Response)
    ensures Find(db.categories, CategoryId, id).None? <==> resp == Error(404, "Category not found")
    ensures Find(db.categories, CategoryId, id).Some? ==>
      resp.status == 200 && resp.body.CategoryDetail? &&
      resp.body.category == Find(db.categories, CategoryId, id).value &&
      SortedBy(resp.body.topics, TopicBefore) &&
      multiset(resp.body.topics) == multiset(Joined(db.topics, Keys(db.users, UserId), {id})) &&
      (forall t :: t in resp.body.topics <==> t in db.topics && t.categoryId == id && t.userId in Keys(db.users, UserId))
  {
    var found := Find(db.categories, CategoryId, id);
    if found.None? {
      return Error(404, "Category not found");
    }
    OrdersArePreorders();
    var topics := SortBy(Joined(db.topics, Keys(db.users, UserId), {id}), TopicBefore);
    assert forall t :: t in topics <==> t in multiset(topics);
    resp := Response(200, CategoryDetail(found.value, topics));
  }

  /** `display_order || 0`: an absent display order, or 0, is stored as 0. */
  function OrderOrZero(displayOrder: Option<int>): (r: int)
    ensures displayOrder.Some? ==> r == displayOrder.value
    ensures displayOrder.None? ==> r == 0
  {
    if displayOrder.Some? then displayOrder.value else 0
  }

  /** POST /. The UNIQUE constraint on `name` turns a duplicate into 400. */
  method CreateCategory(db: Db, caller: Claims, name: Option<string>, description: Option<string>,
                        displayOrder: Option<int>, now: int) returns (resp: Response)
    requires db.Valid()
    modifies db
    ensures db.Valid()
    ensures caller.role != Admin ==> resp == Error(403, "Admin access required") && db.State() == old(db.State())
    ensures caller.role == Admin && Len(name) < 1 ==>
      resp == Response(400, Invalid(["name"])) && db.State() == old(db.State())
    ensures caller.role == Admin && Len(name) >= 1 && name.value in Keys(old(db.categories), CategoryName) ==>
      resp == Error(400, "Category already exists") && db.State() == old(db.State())
    ensures caller.role == Admin && Len(name) >= 1 && name.value !in Keys(old(db.categories), CategoryName) ==>
      resp == Response(201, CategoryCreated(old(db.nextCategoryId))) &&
      db.State() == old(db.State()).(
        categories := old(db.categories) +
          [CategoryRow(old(db.nextCategoryId), name.value, description, Some(OrderOrZero(displayOrder)), now)],
        nextCategoryId := old(db.nextCategoryId) + 1)
  {
    var gate := IsAdmin(Some(caller));
    if gate.Stop? {
      return gate.response;
    }
    if Len(name) < 1 {
      return Response(400, Invalid(["name"]));
    }
    if Find(db.categories, CategoryName, name.value).Some? {
      return Error(400, "Category already exists");
    }
    var c := CategoryRow(db.nextCategoryId, name.value, description, Some(OrderOrZero(displayOrder)), now);
    InsertCategoryKeeps(db.State(), c);
    db.Commit(db.State().(categories := db.categories + [c], nextCategoryId := db.nextCategoryId + 1));
    resp := Response(201, CategoryCreated(c.id));
  }

  /** A property of a JSON request body: missing, `null`, or a value. */
  datatype Field<T> = Undefined | Null | Given(value: T)

  /** One `column = ?` of the UPDATE being built. */
  datatype Assignment = SetName(name: string) | SetDescription(description: Option<string>)
                      | SetDisplayOrder(displayOrder: Option<int>)

  /** The JSON value bound for a field that is not undefined: null becomes NULL. */
  function Bound<T>(f: Field<T>): Option<T>
    requires !f.Undefined?
  {
    if f.Null? then None else Some(f.value)
  }

  /** Runs the SET list of an UPDATE over a row, left to right. */
  function Apply(c: CategoryRow, updates: seq<Assignment>): CategoryRow
    decreases |updates|
  {
    if |updates| == 0 then c
    else
      var u := updates[0];
      var c' := match u
        case SetName(n) => c.(name := n)
        case SetDescription(d) => c.(description := d)
        case SetDisplayOrder(o) => c.(displayOrder := o);
      Apply(c', updates[1..])
  }

  /** What PUT /:id means for a row: `name` changes when it is a non-empty string, `description` and
      `display_order` whenever they are not undefined (null clears them); nothing else. */
  function Patched(c: CategoryRow, name: Field<string>, description: Field<string>,
                   displayOrder: Field<int>): (r: CategoryRow)
    ensures r.id == c.id && r.createdAt == c.createdAt
    ensures r.name == if name.Given? && name.value != "" then name.value else c.name
    ensures r.description == if description.Undefined? then c.description else Bound(description)
    ensures r.displayOrder == if displayOrder.Undefined? then c.displayOrder else Bound(displayOrder)
  {
    c.(name := if name.Given? && name.value != "" then name.value else c.name,
       description := if description.Undefined? then c.description else Bound(description),
       displayOrder := if displayOrder.Undefined? then c.displayOrder else Bound(displayOrder))
  }

  lemma ApplyAppend(c: CategoryRow, updates: seq<Assignment>, u: Assignment)
    ensures Apply(c, updates + [u]) == Apply(Apply(c, updates), [u])
    decreases |updates|
  {
    if |updates| > 0 {
      assert (updates + [u])[1..] == updates[1..] + [u];
    }
  }

  /** Whether PUT /:id with this name would break the UNIQUE constraint. */
  predicate NameClash(categories: seq<CategoryRow>, id: int, name: Field<string>)
  {
    name.Given? && name.value != "" && exists c :: c in categories && c.id != id && c.name == name.value
  }

  /** PUT /:id. A `name` that is present must be a non-empty string (null reads as "").
      The SET list is built one field at a time; with no field to set the handler
      answers 400 before touching the table. A name another category already
      has makes the UPDATE fail on the UNIQUE constraint. */
  method UpdateCategory(db: Db, caller: Claims, id: int, name: Field<string>, description: Field<string>,
                        displayOrder: Field<int>) returns (resp: Response)
    requires db.Valid()
    modifies db
    ensures db.Valid()
    ensures caller.role != Admin ==> resp == Error(403, "Admin access required") && db.State() == old(db.State())
    ensures caller.role == Admin && (name.Null? || (name.Given? && name.value == "")) ==>
      resp == Response(400, Invalid(["name"])) && db.State() == old(db.State())
    ensures caller.role == Admin && name.Undefined? && description.Undefined? && displayOrder.Undefined? ==>
      resp == Error(400, "No fields to update") && db.State() == old(db.State())
    ensures caller.role == Admin && (name.Undefined? || (name.Given? && name.value != "")) &&
            (name.Given? || !description.Undefined? || !displayOrder.Undefined?) ==>
      var found := Find(old(db.categories), CategoryId, id);
      if found.None? then resp == Error(404, "Category not found") && db.State() == old(db.State())
      else if NameClash(old(db.categories), id, name) then
        resp == Error(500, "Failed to update category") && db.State() == old(db.State())
      else
        resp == Response(200, Done("Category updated")) &&
        db.State() == old(db.State()).(categories := Replace(old(db.categories), CategoryId, id,
                                                             Patched(found.value, name, description, displayOrder)))
  {
    var gate := IsAdmin(Some(caller));
    if gate.Stop? {
      return gate.response;
    }
    if name.Null? || (name.Given? && name.value == "") {
      return Response(400, Invalid(["name"]));
    }
    var updates: seq<Assignment> := [];
    if name.Given? && name.value != "" {
      updates := updates + [SetName(name.value)];
    }
    if !description.Undefined? {
      updates := updates + [SetDescription(Bound(description))];
    }
    if !displayOrder.Undefined? {
      updates := updates + [SetDisplayOrder(Bound(displayOrder))];
    }
    if |updates| == 0 {
      return Error(400, "No fields to update");
    }
    forall c ensures Apply(c, updates) == Patched(c, name, description, displayOrder) {
      ghost var u1: seq<Assignment> := if name.Given? && name.value != "" then [SetName(name.value)] else [];
      ghost var u2 := u1 + if !description.Undefined? then [SetDescription(Bound(description))] else [];
      ghost var u3 := u2 + if !displayOrder.Undefined? then [SetDisplayOrder(Bound(displayOrder))] else [];
      assert updates == u3;
      ApplySteps(c, name, description, displayOrder);
    }
    resp := RunUpdate(db, id, name, description, displayOrder, updates);
  }

  /** `UPDATE categories SET ... WHERE id = ?` with a SET list equivalent to Patched. */
  method RunUpdate(db: Db, id: int, name: Field<string>, description: Field<string>,
                   displayOrder: Field<int>, updates: seq<Assignment>) returns (resp: Response)
    requires db.Valid()
    requires name.Undefined? || (name.Given? && name.value != "")
    requires forall c :: Apply(c, updates) == Patched(c, name, description, displayOrder)
    modifies db
    ensures db.Valid()
    ensures var found := Find(old(db.categories), CategoryId, id);
      if found.None? then resp == Error(404, "Category not found") && db.State() == old(db.State())
      else if NameClash(old(db.categories), id, name) then
        resp == Error(500, "Failed to update category") && db.State() == old(db.State())
      else
        resp == Response(200, Done("Category updated")) &&
        db.State() == old(db.State()).(categories := Replace(old(db.categories), CategoryId, id,
                                                             Patched(found.value, name, description, displayOrder)))
  {
    var found := Find(db.categories, CategoryId, id);
    if found.None? {
      return Error(404, "Category not found");
    }
    if name.Given? {
      var other := Find(db.categories, CategoryName, name.value);
      if other.Some? && other.value.id != id {
        return Error(500, "Failed to update category");
      }
      forall c | c in db.categories && c.id != id ensures c.name != name.value {
        if c.name == name.value { FindUniqueName(db.categories, c, other.value); }
      }
    }
    var row := Apply(found.value, updates);
    UpdateCategoryKeeps(db.State(), row);
    db.Commit(db.State().(categories := Replace(db.categories, CategoryId, id, row)));
    resp := Response(200, Done("Category updated"));
  }

  /** The SET list built by pushing the fields in order has the effect of Patched. */
  lemma ApplySteps(c: CategoryRow, name: Field<string>, description: Field<string>, displayOrder: Field<int>)
    ensures var u1 := if name.Given? && name.value != "" then [SetName(name.value)] else [];
            var u2 := u1 + if !description.Undefined? then [SetDescription(Bound(description))] else [];
            var u3 := u2 + if !displayOrder.Undefined? then [SetDisplayOrder(Bound(displayOrder))] else [];
            Apply(c, u3) == Patched(c, name, description, displayOrder)
  {
    var u1 := if name.Given? && name.value != "" then [SetName(name.value)] else [];
    var u2 := u1 + if !description.Undefined? then [SetDescription(Bound(description))] else [];
    var u3 := u2 + if !displayOrder.Undefined? then [SetDisplayOrder(Bound(displayOrder))] else [];
    var c1 := if name.Given? && name.value != "" then c.(name := name.value) else c;
    var c2 := if description.Undefined? then c1 else c1.(description := Bound(description));
    var c3 := if displayOrder.Undefined? then c2 else c2.(displayOrder := Bound(displayOrder));
    assert Apply(c, u1) == c1 by {
      if name.Given? && name.value != "" { assert Apply(c, u1) == Apply(c1, []); }
    }
    assert Apply(c, u2) == c2 by {
      if !description.Undefined? {
        ApplyAppend(c, u1, SetDescription(Bound(description)));
        assert Apply(c1, [SetDescription(Bound(description))]) == Apply(c2, []);
      } else {
        assert u2 == u1;
      }
    }
    assert Apply(c, u3) == c3 by {
      if !displayOrder.Undefined? {
        ApplyAppend(c, u2, SetDisplayOrder(Bound(displayOrder)));
        assert Apply(c2, [SetDisplayOrder(Bound(displayOrder))]) == Apply(c3, []);
      } else {
        assert u3 == u2;
      }
    }
  }

  /** Under a UNIQUE name column the name lookup finds the one row with that name. */
  lemma FindUniqueName(categories: seq<CategoryRow>, c: CategoryRow, found: CategoryRow)
    requires UniqueBy(categories, CategoryName) && c in categories && found in categories
    requires c.name == found.name
    ensures c == found
  {
    var i :| 0 <= i < |categories| && categories[i] == c;
    var j :| 0 <= j < |categories| && categories[j] == found;
    assert !(i < j) && !(j < i);
  }

  /** DELETE /:id, with the declared cascade to the category's topics and their posts. */
  method DeleteCategoryRoute(db: Db, caller: Claims, id: int) returns (resp: Response)
    requires db.Valid()
    modifies db
    ensures db.Valid()
    ensures caller.role != Admin ==> resp == Error(403, "Admin access required") && db.State() == old(db.State())
    ensures caller.role == Admin && id !in Keys(old(db.categories), CategoryId) ==>
      resp == Error(404, "Category not found") && db.State() == old(db.State())
    ensures caller.role == Admin && id in Keys(old(db.categories), CategoryId) ==>
      resp == Response(200, Done("Category deleted")) && db.State() == DeleteCategory(old(db.State()), id)
  {
    var gate := IsAdmin(Some(caller));
    if gate.Stop? {
      return gate.response;
    }
    if Find(db.categories, CategoryId, id).None? {
      return Error(404, "Category not found");
    }
    CascadeCategory(db, id);
    resp := Response(200, Done("Category deleted"));
  }

  /** The DELETE statement itself, cascading as the schema declares. */
  method CascadeCategory(db: Db, id: int)
    requires db.Valid()
    modifies db
    ensures db.Valid() && db.State() == DeleteCategory(old(db.State()), id)
  {
    DeleteCategoryKeeps(db.State(), id);
    db.Commit(DeleteCategory(db.State(), id));
  }
}
