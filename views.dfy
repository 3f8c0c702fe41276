/** What serialization under a role promises: absent and blacklisted fields
    are dropped, nested models are serialized under the same role, and a
    model with nothing to show serializes to None. */
module Views {
  import opened Base
  import opened Ocds
  import opened Engine

  /** Field types whose values are serialized as they are stored. */
  predicate IsPrimitive(ty: FieldType) {
    !ty.ModelT? && !ty.ListT?
  }

  /** An entry of the exported fields is kept exactly when it holds a
      value. */
  lemma PresentEntry(shown: map<string, Option<Val>>, n: string)
    requires n in shown
    ensures n in Present(shown) <==> shown[n].Some?
    ensures shown[n].Some? ==> Present(shown)[n] == shown[n].value
  {
  }

  /** A field of the table that `d` sets and the role does not hide appears
      in the output exactly when its exported value is not empty, and then
      with that value. */
  lemma ShownField(e: Entity, c: Constants, d: map<string, Val>, role: Option<string>, roles: Roles,
                   n: string)
    requires n in Table(e, c) && n in d && n !in Hidden(roles, e, role)
    ensures var x := Export(Height(e), c, Table(e, c)[n].ty, d[n], role, roles);
            var r := Serialize(e, c, d, role, roles);
            (r.Some? && n in r.value <==> x.Some?)
            && (x.Some? ==> r.Some? && r.value[n] == x.value)
  {
    var shown := Shown(e, c, d, role, roles);
    assert n in shown;
    assert shown[n] == Export(Height(e), c, Table(e, c)[n].ty, d[n], role, roles);
    PresentEntry(shown, n);
    var out := Present(shown);
    assert Serialize(e, c, d, role, roles) == if out == map[] then None else Some(out);
  }

  /** A model that sets none of its fields serializes to None, whatever the
      role. */
  lemma NothingSetSerializesToNone(e: Entity, c: Constants, d: map<string, Val>, role: Option<string>,
                                   roles: Roles)
    requires d.Keys * Table(e, c).Keys == {}
    ensures Serialize(e, c, d, role, roles) == None
  {
  }

  /** Under no role every primitive field that is set, and that the
      entity's "default" role does not blacklist, is shown unchanged. */
  lemma DefaultRoleShowsPrimitives(e: Entity, c: Constants, d: map<string, Val>, roles: Roles, n: string)
    requires n in Table(e, c) && n in d && IsPrimitive(Table(e, c)[n].ty)
    requires n !in Hidden(roles, e, None)
    ensures Serialize(e, c, d, None, roles).Some?
    ensures n in Serialize(e, c, d, None, roles).value
    ensures Serialize(e, c, d, None, roles).value[n] == d[n]
  {
    ShownField(e, c, d, None, roles, n);
  }

  /** A role the entity does not list hides what no role hides: the fields
      of the entity's "default" role, or none when it has no such role. This
      fallback is what a nested model gets; the top-level call rejects such a
      role. */
  lemma UnlistedRoleHidesDefault(e: Entity, role: string, roles: Roles)
    requires !ListsRole(roles, e, role)
    ensures Hidden(roles, e, Some(role)) == Hidden(roles, e, None)
    ensures Hidden(roles, e, None) == (if e in roles && "default" in roles[e] then roles[e]["default"] else {})
  {
  }

  /** The top-level call under a role either fails, when the model does not
      list the role, or hides exactly that role's fields: it never falls back
      to "default". */
  lemma TopLevelRoleListed(e: Entity, c: Constants, d: map<string, Val>, role: string, roles: Roles)
    ensures SerializeModel(e, c, d, Some(role), roles).Failure? <==> !ListsRole(roles, e, role)
    ensures SerializeModel(e, c, d, Some(role), roles).Success? ==>
              Hidden(roles, e, Some(role)) == roles[e][role]
  {
  }

  /** A model without nested models serializes under a role it does not
      list exactly as under no role. */
  lemma UnlistedRoleSerializesAsDefault(e: Entity, c: Constants, d: map<string, Val>, role: string,
                                        roles: Roles)
    requires Height(e) == 0
    requires !ListsRole(roles, e, role)
    ensures Serialize(e, c, d, Some(role), roles) == Serialize(e, c, d, None, roles)
  {
    UnlistedRoleHidesDefault(e, role, roles);
    var shown := Shown(e, c, d, Some(role), roles);
    var plain := Shown(e, c, d, None, roles);
    ShownAsStored(e, c, d, Some(role), roles);
    ShownAsStored(e, c, d, None, roles);
    assert shown == plain;
  }

  /** A nested model without nested models of its own, exported under a
      role it does not list, shows what it shows under no role. */
  lemma NestedUnlistedRoleAsDefault(h: nat, c: Constants, m: Entity, x: Val, role: string, roles: Roles)
    requires Height(m) == 0 < h
    requires !ListsRole(roles, m, role)
    ensures Export(h, c, ModelT(m), x, Some(role), roles) == Export(h, c, ModelT(m), x, None, roles)
  {
    if x.Obj? {
      UnlistedRoleSerializesAsDefault(m, c, x.fields, role, roles);
    }
  }

  /** Without nested models every shown field is exported as stored. */
  lemma ShownAsStored(e: Entity, c: Constants, d: map<string, Val>, role: Option<string>, roles: Roles)
    requires Height(e) == 0
    ensures forall n :: n in Shown(e, c, d, role, roles) ==> Shown(e, c, d, role, roles)[n] == Some(d[n])
  {
    var t := Table(e, c);
    var shown := Shown(e, c, d, role, roles);
    forall n | n in shown ensures shown[n] == Some(d[n]) {
      assert shown[n] == Export(0, c, t[n].ty, d[n], role, roles);
    }
  }

  /** A field the role blacklists never appears in the output. */
  lemma BlacklistedFieldHidden(e: Entity, c: Constants, d: map<string, Val>, role: string, roles: Roles,
                               n: string)
    requires e in roles && role in roles[e] && n in roles[e][role]
    ensures Serialize(e, c, d, Some(role), roles).Some? ==> n !in Serialize(e, c, d, Some(role), roles).value
  {
  }

  /** A nested model is serialized under the role of its parent: a visible
      nested field shows exactly what serializing the nested model under the
      same role shows, and is dropped when that is None. */
  lemma NestedUnderSameRole(e: Entity, c: Constants, d: map<string, Val>, role: Option<string>,
                            roles: Roles, n: string, m: Entity, f: map<string, Val>)
    requires n in Table(e, c) && Table(e, c)[n].ty == ModelT(m)
    requires n in d && d[n] == Obj(f) && n !in Hidden(roles, e, role)
    ensures var r := Serialize(e, c, d, role, roles);
            match Serialize(m, c, f, role, roles)
            case Some(o) => r.Some? && n in r.value && r.value[n] == Obj(o)
            case None => r.Some? ==> n !in r.value
  {
    ShownField(e, c, d, role, roles, n);
  }

  /** Organization.identifier is a required nested Identifier, whose id
      takes any value. */
  lemma OrganizationIdentifierFields(c: Constants)
    ensures "identifier" in Table(Organization, c)
    ensures Table(Organization, c)["identifier"] == Mandatory(ModelT(Identifier))
    ensures "id" in Table(Identifier, c) && Table(Identifier, c)["id"] == Mandatory(AnyT)
  {
  }

  /** With Identifier's `id` blacklisted under "view", and Organization
      not hiding its identifier under "view", the identifier inside an
      Organization serialized under "view" has no id. */
  lemma IdentifierIdHiddenUnderView(c: Constants, d: map<string, Val>, f: map<string, Val>, roles: Roles)
    requires Identifier in roles && "view" in roles[Identifier] && "id" in roles[Identifier]["view"]
    requires "identifier" !in Hidden(roles, Organization, Some("view"))
    requires "identifier" in d && d["identifier"] == Obj(f)
    ensures var view := Serialize(Organization, c, d, Some("view"), roles);
            view.Some? && "identifier" in view.value ==>
              view.value["identifier"].Obj? && "id" !in view.value["identifier"].fields
  {
    OrganizationIdentifierFields(c);
    NestedUnderSameRole(Organization, c, d, Some("view"), roles, "identifier", Identifier, f);
    BlacklistedFieldHidden(Identifier, c, f, "view", roles, "id");
  }

  /** Under no role the same Organization shows the identifier's id, unless
      a "default" role of Organization or Identifier hides it. */
  lemma IdentifierIdShownByDefault(c: Constants, d: map<string, Val>, f: map<string, Val>, roles: Roles)
    requires "identifier" !in Hidden(roles, Organization, None) && "id" !in Hidden(roles, Identifier, None)
    requires "identifier" in d && d["identifier"] == Obj(f) && "id" in f
    ensures var all := Serialize(Organization, c, d, None, roles);
            && all.Some? && "identifier" in all.value && all.value["identifier"].Obj?
            && "id" in all.value["identifier"].fields
  {
    OrganizationIdentifierFields(c);
    DefaultRoleShowsPrimitives(Identifier, c, f, roles, "id");
    NestedUnderSameRole(Organization, c, d, None, roles, "identifier", Identifier, f);
  }
}
