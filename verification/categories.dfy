/** The category handlers over the category collection: create with a
    name-uniqueness check, update without one, delete. */
module Categories {
  import opened Results
  import opened Models

  type Categories = map<CategoryId, Category>

  datatype CategoryError = NameRequired | CategoryExists | CategoryNotFound

  /** No two categories share a name. */
  predicate UniqueNames(cs: Categories) {
    forall a, b :: a in cs && b in cs && a != b ==> cs[a].name != cs[b].name
  }

  /** Some stored category has exactly this name. */
  predicate NameTaken(cs: Categories, name: string) {
    exists id :: id in cs && cs[id].name == name
  }

  /** `createCategory`. A missing or empty name is refused; so is a name equal
      to an existing category's; in both cases nothing changes. Otherwise one
      category with that name is added under the new id and the others are
      untouched. */
  function CreateCategory(cs: Categories, newId: CategoryId, name: string): (r: Response<Categories, Category, CategoryError>)
    requires newId !in cs
    ensures name == "" ==> r == Response(cs, Err(NameRequired))
    ensures name != "" && NameTaken(cs, name) ==> r == Response(cs, Err(CategoryExists))
    ensures r.reply.Ok? <==> name != "" && !NameTaken(cs, name)
    ensures r.reply.Ok? ==> r.reply.value.name == name && r.state == cs[newId := r.reply.value]
  {
    if name == "" then Response(cs, Err(NameRequired))
    else if exists id :: id in cs && cs[id].name == name then Response(cs, Err(CategoryExists))
    else
      var c := Category(name);
      Response(cs[newId := c], Ok(c))
  }

  /** The body of an update; a missing `name` leaves the stored one. */
  datatype CategoryPatch = CategoryPatch(name: Option<string>)

  /** `updateCategory`: an unknown id is refused and nothing changes;
      otherwise the body is applied to that category, with no check that the
      new name is free. */
  function UpdateCategory(cs: Categories, id: CategoryId, body: CategoryPatch): (r: Response<Categories, Category, CategoryError>)
    ensures id !in cs ==> r == Response(cs, Err(CategoryNotFound))
    ensures id in cs ==> r.reply.Ok? && r.state == cs[id := r.reply.value]
    ensures id in cs && body.name.Some? ==> r.reply.value.name == body.name.value
    ensures id in cs && body.name.None? ==> r.reply.value == cs[id]
  {
    if id !in cs then Response(cs, Err(CategoryNotFound))
    else
      var c := if body.name.Some? then Category(body.name.value) else cs[id];
      Response(cs[id := c], Ok(c))
  }

  /** `deleteCategory`: an unknown id is refused and nothing changes;
      otherwise exactly that category is removed. */
  function DeleteCategory(cs: Categories, id: CategoryId): (r: Response<Categories, CategoryId, CategoryError>)
    ensures id !in cs ==> r == Response(cs, Err(CategoryNotFound))
    ensures id in cs ==> r.reply == Ok(id)
    ensures r.state.Keys == cs.Keys - {id}
    ensures forall k :: k in r.state ==> r.state[k] == cs[k]
  {
    if id !in cs then Response(cs, Err(CategoryNotFound))
    else Response(cs - {id}, Ok(id))
  }

  /** Creating and deleting keep category names unique. */
  lemma CreateDeleteKeepUniqueNames(cs: Categories, newId: CategoryId, name: string, id: CategoryId)
    requires UniqueNames(cs) && newId !in cs
    ensures UniqueNames(CreateCategory(cs, newId, name).state)
    ensures UniqueNames(DeleteCategory(cs, id).state)
  {
  }

  /** Updating does not: renaming one of two categories to the other's name
      is accepted and leaves two categories with the same name. */
  lemma UpdateCanDuplicateNames()
    ensures var cs := map["a" := Category("Phones"), "b" := Category("Laptops")];
      && UniqueNames(cs)
      && UpdateCategory(cs, "b", CategoryPatch(Some("Phones"))).reply.Ok?
      && !UniqueNames(UpdateCategory(cs, "b", CategoryPatch(Some("Phones"))).state)
  {
    var cs := map["a" := Category("Phones"), "b" := Category("Laptops")];
    var after := UpdateCategory(cs, "b", CategoryPatch(Some("Phones"))).state;
    assert after["a"].name == after["b"].name;
  }
}
