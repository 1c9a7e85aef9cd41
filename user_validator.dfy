/**
 * The request-body validators of the user endpoints (users/validator.js):
 * the user payload schema, its admin and update variants derived from it,
 * and the change-password, forgot-password and socket-login schemas.
 */
module UserValidator {
  import opened Wrappers
  import J = Json
  import opened JsonSchema

  // ---------------------------------------------------------------------
  // The schemas

  const Text: Schema := Schema(typ := Some(StringType))

  /** A password: a string of 6 to 50 code points. */
  const PasswordSchema: Schema := Schema(typ := Some(StringType), maxLength := Some(50), minLength := Some(6))

  function OneOf(values: seq<string>): Schema {
    Schema(typ := Some(StringType), enumValues := Some(J.Strings(values).items))
  }

  /** A postal or property address: `town` and `postcode` required, nothing unknown. */
  const AddressSchema: Schema := Schema(
    typ := Some(ObjectType),
    properties := map["name" := Text, "address" := Text, "town" := Text, "postcode" := Text],
    required := Some(["town", "postcode"]),
    additionalProperties := false)

  /** Lot id to a list of lot ids, every id 24 lower-case hexadecimal digits. */
  const WatchListSchema: Schema := Schema(
    typ := Some(ObjectType),
    patternProperties := map[ObjectIdPattern := Schema(
      typ := Some(ArrayType),
      items := Some(Schema(typ := Some(StringType), pattern := Some(ObjectIdPattern))))],
    additionalProperties := false)

  /**
   * The members a user payload may have, with `role` restricted to `roles`:
   * the role list is the only part the caller's kind changes.
   */
  function UserProperties(roles: seq<J.Value>): (props: map<string, Schema>)
    ensures "role" in props && props["role"] == Schema(typ := Some(StringType), enumValues := Some(roles))
  {
    map[
      "name" := Text,
      "firstName" := Text,
      "lastName" := Text,
      "email" := Schema(typ := Some(StringType), format := Some(EmailFormat)),
      "website" := Text,
      "password" := PasswordSchema,
      "phone" := Text,
      "secondaryPhone" := Text,
      "role" := Schema(typ := Some(StringType), enumValues := Some(roles)),
      "type" := OneOf(["seller", "buyer"]),
      "sellerType" := OneOf(["independent", "agency"]),
      "agencyName" := Text,
      "PIC" := Text,
      "ABN" := Text,
      "SSPermitNumber" := Text,
      "SSPermitNumberAge" := Text,
      "settings" := Schema(typ := Some(ObjectType)),
      "tradingName" := Text,
      "saleConditions" := Text,
      "watchList" := WatchListSchema,
      "propertyAddress" := AddressSchema,
      "postalAddress" := AddressSchema]
  }

  /** The names of the members a user payload may have. */
  const UserFieldNames: set<string> := UserProperties([]).Keys

  const CoreFields: seq<string> := ["firstName", "lastName", "email", "password"]

  /** The schema of the `user` member. */
  function UserObject(roles: seq<J.Value>, required: Option<seq<string>>): Schema {
    Schema(
      typ := Some(ObjectType),
      properties := UserProperties(roles),
      required := required,
      additionalProperties := false)
  }

  /** A payload `{user: ...}` with nothing else. */
  function Envelope(user: Schema): Schema {
    Schema(
      typ := Some(ObjectType),
      properties := map["user" := user],
      required := Some(["user"]),
      additionalProperties := false)
  }

  /** `userSchema`: the payload for creating a user. */
  const UserSchema: Schema := Envelope(UserObject([J.Str("user")], Some(CoreFields)))

  /** `changePasswordSchema` */
  const ChangePasswordSchema: Schema := Schema(
    typ := Some(ObjectType),
    properties := map["password" := PasswordSchema],
    required := Some(["password"]),
    additionalProperties := false)

  /** `forgotPasswordSchema` */
  const ForgotPasswordSchema: Schema := Schema(
    typ := Some(ObjectType),
    properties := map["email" := Schema(typ := Some(StringType), format := Some(EmailFormat))],
    required := Some(["email"]),
    additionalProperties := false)

  /** The schema of `io.login`: the API key of a socket connection. */
  const LoginSchema: Schema := Schema(
    typ := Some(ObjectType),
    properties := map["x-api-key" := Text],
    required := Some(["x-api-key"]),
    additionalProperties := false)

  // ---------------------------------------------------------------------
  // Deriving the variants

  /** The schema has `properties.user.properties.role.enum`. */
  predicate HasRoleEnum(s: Schema) {
    && "user" in s.properties
    && "role" in s.properties["user"].properties
    && s.properties["user"].properties["role"].enumValues.Some?
  }

  /**
   * `createAdminValidator`'s schema: a copy of `s` whose
   * `properties.user.properties.role.enum` also admits `'admin'`.
   */
  function WithAdminRole(s: Schema): (r: Schema)
    requires HasRoleEnum(s)
    ensures HasRoleEnum(r)
    ensures r.properties["user"].properties["role"].enumValues.value
         == s.properties["user"].properties["role"].enumValues.value + [J.Str("admin")]
    ensures r.(properties := s.properties) == s
    ensures r.properties["user"].(properties := s.properties["user"].properties) == s.properties["user"]
    ensures r.properties["user"].properties["role"].(enumValues := s.properties["user"].properties["role"].enumValues)
         == s.properties["user"].properties["role"]
    ensures r.properties.Keys == s.properties.Keys
    ensures r.properties["user"].properties.Keys == s.properties["user"].properties.Keys
    ensures forall k :: k in s.properties && k != "user" ==> r.properties[k] == s.properties[k]
    ensures forall k :: k in s.properties["user"].properties && k != "role" ==>
              r.properties["user"].properties[k] == s.properties["user"].properties[k]
  {
    var user := s.properties["user"];
    var role := user.properties["role"];
    var role' := role.(enumValues := Some(role.enumValues.value + [J.Str("admin")]));
    s.(properties := s.properties["user" := user.(properties := user.properties["role" := role'])])
  }

  /** `updateUserSchema`: a copy of `s` without `properties.user.required`. */
  function WithoutUserRequired(s: Schema): (r: Schema)
    requires "user" in s.properties
    ensures "user" in r.properties && r.properties["user"].required.None?
    ensures r.properties["user"].(required := s.properties["user"].required) == s.properties["user"]
    ensures r.(properties := s.properties) == s
    ensures r.properties.Keys == s.properties.Keys
    ensures forall k :: k in s.properties && k != "user" ==> r.properties[k] == s.properties[k]
  {
    var user := s.properties["user"];
    s.(properties := s.properties["user" := user.(required := None)])
  }

  const AdminUserSchema: Schema := WithAdminRole(UserSchema)
  const UpdateUserSchema: Schema := WithoutUserRequired(UserSchema)
  const AdminUpdateUserSchema: Schema := WithAdminRole(UpdateUserSchema)

  /**
   * `create(isAdmin)`: what the derivation produces is the user envelope with
   * the roles of the caller's kind and the four core fields required.
   */
  function Create(isAdmin: bool): (s: Schema)
    ensures s == Envelope(UserObject(Roles(isAdmin), Some(CoreFields)))
  {
    AdminRoleOfEnvelope([J.Str("user")], Some(CoreFields));
    assert [J.Str("user")] + [J.Str("admin")] == Roles(true);
    if isAdmin then AdminUserSchema else UserSchema
  }

  /**
   * `update(isAdmin)`: the same envelope with no member of `user` required;
   * the admin variant is derived from the update copy.
   */
  function Update(isAdmin: bool): (s: Schema)
    ensures s == Envelope(UserObject(Roles(isAdmin), None))
  {
    RequiredOfEnvelope([J.Str("user")], Some(CoreFields));
    AdminRoleOfEnvelope([J.Str("user")], None);
    assert [J.Str("user")] + [J.Str("admin")] == Roles(true);
    if isAdmin then AdminUpdateUserSchema else UpdateUserSchema
  }

  /** The roles a variant admits. */
  function Roles(isAdmin: bool): seq<J.Value> {
    if isAdmin then [J.Str("user"), J.Str("admin")] else [J.Str("user")]
  }

  /** The selectors return the admin variant exactly when the caller is an admin. */
  lemma SelectorsPickAdmin(isAdmin: bool)
    ensures Create(isAdmin) == AdminUserSchema <==> isAdmin
    ensures Update(isAdmin) == AdminUpdateUserSchema <==> isAdmin
    ensures Create(isAdmin) != Update(isAdmin)
  {
    assert Roles(true) != Roles(false) by {
      assert |Roles(true)| != |Roles(false)|;
    }
    assert Create(true) == AdminUserSchema && Create(false) == UserSchema;
    assert Update(true) == AdminUpdateUserSchema && Update(false) == UpdateUserSchema;
    var r := UserObject(Roles(false), Some(CoreFields));
    assert Envelope(r).properties["user"].properties["role"].enumValues == Some(Roles(false));
    assert AdminUserSchema.properties["user"].properties["role"].enumValues == Some(Roles(true));
    assert UpdateUserSchema.properties["user"].properties["role"].enumValues == Some(Roles(false));
    assert AdminUpdateUserSchema.properties["user"].properties["role"].enumValues == Some(Roles(true));
    assert Create(isAdmin).properties["user"].required.Some?;
    assert Update(isAdmin).properties["user"].required.None?;
  }

  /** Adding the admin role to the user envelope extends its `role` enum. */
  lemma AdminRoleOfEnvelope(roles: seq<J.Value>, required: Option<seq<string>>)
    ensures WithAdminRole(Envelope(UserObject(roles, required)))
         == Envelope(UserObject(roles + [J.Str("admin")], required))
  {
    var props := UserProperties(roles);
    var role := props["role"];
    assert props["role" := role.(enumValues := Some(roles + [J.Str("admin")]))]
        == UserProperties(roles + [J.Str("admin")]);
  }

  /** Dropping the inner `required` of the user envelope. */
  lemma RequiredOfEnvelope(roles: seq<J.Value>, required: Option<seq<string>>)
    ensures WithoutUserRequired(Envelope(UserObject(roles, required)))
         == Envelope(UserObject(roles, None))
  {
  }

  // ---------------------------------------------------------------------
  // What the validators accept

  /** A user validator: for creating or updating, by an admin or not. */
  function Variant(isAdmin: bool, creating: bool): Schema {
    if creating then Create(isAdmin) else Update(isAdmin)
  }

  /** A closed object schema accepts exactly the objects with known, valid, required members. */
  lemma ClosedObject(s: Schema, v: J.Value, isEmail: string -> bool)
    requires s.typ == Some(ObjectType) && s.enumValues.None?
    requires s.patternProperties == map[] && !s.additionalProperties
    ensures Valid(s, v, isEmail) <==>
      && v.Obj?
      && v.fields.Keys <= s.properties.Keys
      && (s.required.Some? ==> forall k :: k in s.required.value ==> k in v.fields)
      && forall k :: k in v.fields ==> Valid(s.properties[k], v.fields[k], isEmail)
  {
  }

  /** The four user validators accept `{user: u}` exactly when `u` passes the user object schema. */
  lemma {:induction false} VariantValid(isAdmin: bool, creating: bool, v: J.Value, isEmail: string -> bool)
    ensures Valid(Variant(isAdmin, creating), v, isEmail) <==>
      && v.Obj? && v.fields.Keys == {"user"}
      && Valid(UserObject(Roles(isAdmin), if creating then Some(CoreFields) else None),
               v.fields["user"], isEmail)
  {
    var u := UserObject(Roles(isAdmin), if creating then Some(CoreFields) else None);
    ClosedObject(Envelope(u), v, isEmail);
  }

  /** The user object: only known members, each valid, the core ones when required. */
  lemma {:induction false} UserObjectValid(roles: seq<J.Value>, required: Option<seq<string>>,
                                           user: J.Value, isEmail: string -> bool)
    ensures Valid(UserObject(roles, required), user, isEmail) <==>
      && user.Obj?
      && user.fields.Keys <= UserFieldNames
      && (required.Some? ==> forall k :: k in required.value ==> k in user.fields)
      && forall k :: k in user.fields ==> Valid(UserProperties(roles)[k], user.fields[k], isEmail)
  {
    assert UserProperties(roles).Keys == UserFieldNames;
    ClosedObject(UserObject(roles, required), user, isEmail);
  }

  /**
   * Creating needs a top-level `user` object, and nothing else at the top
   * level, holding `firstName`, `lastName`, `email` and `password`; updating
   * still needs the `user` object. Neither admits an unknown member in it.
   */
  lemma {:induction false} UserEnvelopeRequired(isAdmin: bool, creating: bool, v: J.Value,
                                                isEmail: string -> bool)
    requires Valid(Variant(isAdmin, creating), v, isEmail)
    ensures v.Obj? && v.fields.Keys == {"user"} && v.fields["user"].Obj?
    ensures v.fields["user"].fields.Keys <= UserFieldNames
    ensures creating ==> forall k :: k in CoreFields ==> k in v.fields["user"].fields
  {
    VariantValid(isAdmin, creating, v, isEmail);
    UserObjectValid(Roles(isAdmin), if creating then Some(CoreFields) else None, v.fields["user"], isEmail);
  }

  /** The `user` member of a payload that a user validator accepted. */
  function UserOf(v: J.Value): J.Value
    requires v.Obj? && "user" in v.fields
  {
    v.fields["user"]
  }

  /** A member of an accepted user object passed the schema of that member. */
  lemma {:induction false} MemberValid(isAdmin: bool, creating: bool, v: J.Value, isEmail: string -> bool,
                                       k: string)
    requires Valid(Variant(isAdmin, creating), v, isEmail)
    ensures v.Obj? && "user" in v.fields && UserOf(v).Obj?
    ensures k in UserOf(v).fields ==>
              k in UserFieldNames && Valid(UserProperties(Roles(isAdmin))[k], UserOf(v).fields[k], isEmail)
  {
    VariantValid(isAdmin, creating, v, isEmail);
    UserObjectValid(Roles(isAdmin), if creating then Some(CoreFields) else None, UserOf(v), isEmail);
  }

  /** The schema of the user member `k`, for the members whose schema a lemma needs. */
  lemma PropertySchema(roles: seq<J.Value>, k: string)
    ensures k == "propertyAddress" || k == "postalAddress" ==> UserProperties(roles)[k] == AddressSchema
    ensures k == "watchList" ==> UserProperties(roles)[k] == WatchListSchema
    ensures k == "settings" ==> UserProperties(roles)[k] == Schema(typ := Some(ObjectType))
    ensures k == "password" ==> UserProperties(roles)[k] == PasswordSchema
  {
  }

  /** A `password` in a user payload is a string of 6 to 50 code points. */
  lemma {:induction false} UserPasswordBounds(isAdmin: bool, creating: bool, v: J.Value,
                                              isEmail: string -> bool)
    requires Valid(Variant(isAdmin, creating), v, isEmail)
    requires v.Obj? && "user" in v.fields && UserOf(v).Obj? && "password" in UserOf(v).fields
    ensures UserOf(v).fields["password"].Str?
    ensures 6 <= |UserOf(v).fields["password"].s| <= 50
  {
    MemberValid(isAdmin, creating, v, isEmail, "password");
    PasswordMember(Roles(isAdmin), UserOf(v).fields["password"], isEmail);
  }

  /** A value the `password` member schema accepts is a string of 6 to 50 code points. */
  lemma PasswordMember(roles: seq<J.Value>, x: J.Value, isEmail: string -> bool)
    requires Valid(UserProperties(roles)["password"], x, isEmail)
    ensures x.Str? && 6 <= |x.s| <= 50
  {
    PropertySchema(roles, "password");
  }

  /** Change-password accepts exactly `{password}` with a password of 6 to 50 code points. */
  lemma ChangePasswordValid(v: J.Value, isEmail: string -> bool)
    ensures Valid(ChangePasswordSchema, v, isEmail) <==>
      && v.Obj? && v.fields.Keys == {"password"}
      && v.fields["password"].Str? && 6 <= |v.fields["password"].s| <= 50
  {
    ClosedObject(ChangePasswordSchema, v, isEmail);
  }

  /** Forgot-password accepts exactly `{email}` with an email address. */
  lemma ForgotPasswordValid(v: J.Value, isEmail: string -> bool)
    ensures Valid(ForgotPasswordSchema, v, isEmail) <==>
      && v.Obj? && v.fields.Keys == {"email"}
      && v.fields["email"].Str? && isEmail(v.fields["email"].s)
  {
    ClosedObject(ForgotPasswordSchema, v, isEmail);
  }

  /** The socket login accepts exactly `{'x-api-key'}` with a string. */
  lemma LoginValid(v: J.Value, isEmail: string -> bool)
    ensures Valid(LoginSchema, v, isEmail) <==>
      v.Obj? && v.fields.Keys == {"x-api-key"} && v.fields["x-api-key"].Str?
  {
    ClosedObject(LoginSchema, v, isEmail);
  }

  /** A `role` is `'user'`, or `'admin'` for the admin validators only. */
  lemma {:induction false} RoleRestricted(isAdmin: bool, creating: bool, v: J.Value, isEmail: string -> bool)
    requires Valid(Variant(isAdmin, creating), v, isEmail)
    requires v.Obj? && "user" in v.fields && UserOf(v).Obj? && "role" in UserOf(v).fields
    ensures UserOf(v).fields["role"] == J.Str("user") || (isAdmin && UserOf(v).fields["role"] == J.Str("admin"))
  {
    MemberValid(isAdmin, creating, v, isEmail, "role");
    RoleMember(isAdmin, UserOf(v).fields["role"], isEmail);
  }

  /** A value the `role` member schema accepts is `'user'`, or `'admin'` for an admin. */
  lemma RoleMember(isAdmin: bool, x: J.Value, isEmail: string -> bool)
    requires Valid(UserProperties(Roles(isAdmin))["role"], x, isEmail)
    ensures x == J.Str("user") || (isAdmin && x == J.Str("admin"))
  {
  }

  /** The member schemas of the two role variants differ only in `role`. */
  lemma AdminPropertiesExtend(k: string, val: J.Value, isEmail: string -> bool)
    requires k in UserFieldNames
    requires Valid(UserProperties(Roles(false))[k], val, isEmail)
    ensures Valid(UserProperties(Roles(true))[k], val, isEmail)
  {
    assert UserProperties(Roles(false)).Keys == UserFieldNames;
    if k != "role" {
      assert UserProperties(Roles(true))[k] == UserProperties(Roles(false))[k];
    }
  }

  /** The admin user object accepts whatever the non-admin one accepts. */
  lemma {:induction false} AdminUserObjectExtends(required: Option<seq<string>>, user: J.Value,
                                                  isEmail: string -> bool)
    requires Valid(UserObject(Roles(false), required), user, isEmail)
    ensures Valid(UserObject(Roles(true), required), user, isEmail)
  {
    UserObjectValid(Roles(false), required, user, isEmail);
    UserObjectValid(Roles(true), required, user, isEmail);
    forall k | k in user.fields
      ensures Valid(UserProperties(Roles(true))[k], user.fields[k], isEmail)
    {
      AdminPropertiesExtend(k, user.fields[k], isEmail);
    }
  }

  /** The user object with `role` set to `'admin'`. */
  function Promoted(user: J.Value): (r: J.Value)
    requires user.Obj?
    ensures r.Obj? && r.fields.Keys == user.fields.Keys + {"role"} && r.fields["role"] == J.Str("admin")
  {
    J.Obj(user.fields["role" := J.Str("admin")])
  }

  /** Setting `role` to `'admin'` in an accepted user object: the admin object accepts it. */
  lemma {:induction false} PromotedAdminAccepted(required: Option<seq<string>>, user: J.Value,
                                                 isEmail: string -> bool)
    requires Valid(UserObject(Roles(true), required), user, isEmail)
    ensures user.Obj? && Valid(UserObject(Roles(true), required), Promoted(user), isEmail)
  {
    UserObjectValid(Roles(true), required, user, isEmail);
    var promoted := Promoted(user);
    assert "role" in UserFieldNames;
    forall k | k in promoted.fields
      ensures Valid(UserProperties(Roles(true))[k], promoted.fields[k], isEmail)
    {
      if k != "role" {
        assert promoted.fields[k] == user.fields[k];
      }
    }
    UserObjectValid(Roles(true), required, promoted, isEmail);
  }

  /** The non-admin user object never accepts `role: 'admin'`. */
  lemma {:induction false} AdminRoleRefused(required: Option<seq<string>>, user: J.Value,
                                            isEmail: string -> bool)
    requires user.Obj? && "role" in user.fields && user.fields["role"] == J.Str("admin")
    ensures !Valid(UserObject(Roles(false), required), user, isEmail)
  {
    UserObjectValid(Roles(false), required, user, isEmail);
    assert !Valid(UserProperties(Roles(false))["role"], J.Str("admin"), isEmail);
  }

  /** The admin validators accept every payload the non-admin ones accept. */
  lemma {:induction false} AdminVariantExtends(creating: bool, v: J.Value, isEmail: string -> bool)
    requires Valid(Variant(false, creating), v, isEmail)
    ensures Valid(Variant(true, creating), v, isEmail)
  {
    var required := if creating then Some(CoreFields) else None;
    VariantValid(false, creating, v, isEmail);
    AdminUserObjectExtends(required, UserOf(v), isEmail);
    VariantValid(true, creating, v, isEmail);
  }

  /**
   * Setting `role` to `'admin'` in a payload the non-admin validator accepts
   * gives one that the admin validator accepts and the non-admin one refuses:
   * `create(isAdmin)` and `update(isAdmin)` admit an admin role exactly when
   * `isAdmin`.
   */
  lemma {:induction false} AdminRoleIffAdmin(isAdmin: bool, creating: bool, v: J.Value, isEmail: string -> bool)
    requires Valid(Variant(false, creating), v, isEmail)
    ensures v.Obj? && "user" in v.fields && UserOf(v).Obj?
    ensures Valid(Variant(isAdmin, creating), J.Single("user", Promoted(UserOf(v))), isEmail) <==> isAdmin
  {
    if isAdmin {
      PromotedPayloadAccepted(creating, v, isEmail);
    } else {
      PromotedPayloadRefused(creating, v, isEmail);
    }
  }

  /** An admin validator accepts the promoted payload. */
  lemma {:induction false} PromotedPayloadAccepted(creating: bool, v: J.Value, isEmail: string -> bool)
    requires Valid(Variant(false, creating), v, isEmail)
    ensures v.Obj? && "user" in v.fields && UserOf(v).Obj?
    ensures Valid(Variant(true, creating), J.Single("user", Promoted(UserOf(v))), isEmail)
  {
    var required := if creating then Some(CoreFields) else None;
    VariantValid(false, creating, v, isEmail);
    AdminUserObjectExtends(required, UserOf(v), isEmail);
    PromotedAdminAccepted(required, UserOf(v), isEmail);
    VariantValid(true, creating, J.Single("user", Promoted(UserOf(v))), isEmail);
  }

  /** A non-admin validator refuses the promoted payload. */
  lemma {:induction false} PromotedPayloadRefused(creating: bool, v: J.Value, isEmail: string -> bool)
    requires Valid(Variant(false, creating), v, isEmail)
    ensures v.Obj? && "user" in v.fields && UserOf(v).Obj?
    ensures !Valid(Variant(false, creating), J.Single("user", Promoted(UserOf(v))), isEmail)
  {
    var required := if creating then Some(CoreFields) else None;
    VariantValid(false, creating, v, isEmail);
    AdminRoleRefused(required, Promoted(UserOf(v)), isEmail);
    VariantValid(false, creating, J.Single("user", Promoted(UserOf(v))), isEmail);
  }


  const AddressFieldNames: set<string> := {"name", "address", "town", "postcode"}

  /** What the address schema accepts. */
  lemma AddressValid(a: J.Value, isEmail: string -> bool)
    ensures Valid(AddressSchema, a, isEmail) <==>
      && a.Obj?
      && "town" in a.fields && "postcode" in a.fields
      && a.fields.Keys <= AddressFieldNames
      && forall k :: k in a.fields ==> a.fields[k].Str?
  {
    ClosedObject(AddressSchema, a, isEmail);
  }


  /**
   * `propertyAddress` and `postalAddress`, when present, are objects of
   * string members with `town` and `postcode` and no unknown member.
   */
  lemma {:induction false} AddressShape(isAdmin: bool, creating: bool, v: J.Value, isEmail: string -> bool,
                                        field: string)
    requires Valid(Variant(isAdmin, creating), v, isEmail)
    requires field == "propertyAddress" || field == "postalAddress"
    requires v.Obj? && "user" in v.fields && UserOf(v).Obj? && field in UserOf(v).fields
    ensures var address := UserOf(v).fields[field];
      && address.Obj?
      && "town" in address.fields && "postcode" in address.fields
      && address.fields.Keys <= AddressFieldNames
      && forall k :: k in address.fields ==> address.fields[k].Str?
  {
    MemberValid(isAdmin, creating, v, isEmail, field);
    PropertySchema(Roles(isAdmin), field);
    AddressValid(UserOf(v).fields[field], isEmail);
  }

  /** A list of ids: an array of strings each of which is an id. */
  predicate IsIdList(list: J.Value) {
    list.Arr? && forall i :: 0 <= i < |list.items| ==> list.items[i].Str? && IsObjectId(list.items[i].s)
  }

  const IdSchema: Schema := Schema(typ := Some(StringType), pattern := Some(ObjectIdPattern))
  const IdListSchema: Schema := Schema(typ := Some(ArrayType), items := Some(IdSchema))

  lemma IdListValid(list: J.Value, isEmail: string -> bool)
    ensures Valid(IdListSchema, list, isEmail) <==> IsIdList(list)
  {
    if list.Arr? {
      forall i | 0 <= i < |list.items|
        ensures Valid(IdSchema, list.items[i], isEmail) <==> list.items[i].Str? && IsObjectId(list.items[i].s)
      {
      }
    }
  }

  /** What the watch-list schema accepts: ids mapped to lists of ids, nothing else. */
  lemma WatchListValid(w: J.Value, isEmail: string -> bool)
    ensures Valid(WatchListSchema, w, isEmail) <==>
      w.Obj? && forall key :: key in w.fields ==> IsObjectId(key) && IsIdList(w.fields[key])
  {
    assert WatchListSchema.patternProperties == map[ObjectIdPattern := IdListSchema];
    if w.Obj? {
      forall key | key in w.fields
        ensures Declared(WatchListSchema, key) <==> IsObjectId(key)
        ensures Valid(IdListSchema, w.fields[key], isEmail) <==> IsIdList(w.fields[key])
      {
        IdListValid(w.fields[key], isEmail);
        if IsObjectId(key) {
          assert ObjectIdPattern in WatchListSchema.patternProperties && PatternMatches(ObjectIdPattern, key);
        }
      }
    }
  }

  /** Every `watchList` key and every id listed under it is 24 characters from `[a-f0-9]`. */
  lemma {:induction false} WatchListIds(isAdmin: bool, creating: bool, v: J.Value, isEmail: string -> bool)
    requires Valid(Variant(isAdmin, creating), v, isEmail)
    requires v.Obj? && "user" in v.fields && UserOf(v).Obj? && "watchList" in UserOf(v).fields
    ensures var w := UserOf(v).fields["watchList"];
      w.Obj? && forall key :: key in w.fields ==> IsObjectId(key) && IsIdList(w.fields[key])
  {
    MemberValid(isAdmin, creating, v, isEmail, "watchList");
    PropertySchema(Roles(isAdmin), "watchList");
    WatchListValid(UserOf(v).fields["watchList"], isEmail);
  }

  /** The user object with `settings` replaced by the object `settings`. */
  function WithSettings(user: J.Value, settings: map<string, J.Value>): (r: J.Value)
    requires user.Obj?
    ensures r.Obj? && r.fields.Keys == user.fields.Keys + {"settings"}
  {
    J.Obj(user.fields["settings" := J.Obj(settings)])
  }

  /** `settings` is open: any object may stand there. */
  lemma {:induction false} SettingsOpenObject(roles: seq<J.Value>, required: Option<seq<string>>,
                                              user: J.Value, isEmail: string -> bool,
                                              settings: map<string, J.Value>)
    requires Valid(UserObject(roles, required), user, isEmail)
    ensures user.Obj? && Valid(UserObject(roles, required), WithSettings(user, settings), isEmail)
  {
    UserObjectValid(roles, required, user, isEmail);
    var user' := WithSettings(user, settings);
    assert "settings" in UserFieldNames;
    forall k | k in user'.fields
      ensures Valid(UserProperties(roles)[k], user'.fields[k], isEmail)
    {
      if k == "settings" {
        PropertySchema(roles, k);
      }
    }
    UserObjectValid(roles, required, user', isEmail);
  }

  /** The same for a whole payload: replacing `user.settings` by any object keeps it valid. */
  lemma {:induction false} SettingsOpen(isAdmin: bool, creating: bool, v: J.Value, isEmail: string -> bool,
                                        settings: map<string, J.Value>)
    requires Valid(Variant(isAdmin, creating), v, isEmail)
    ensures v.Obj? && "user" in v.fields && UserOf(v).Obj?
    ensures Valid(Variant(isAdmin, creating), J.Single("user", WithSettings(UserOf(v), settings)), isEmail)
  {
    var required := if creating then Some(CoreFields) else None;
    VariantValid(isAdmin, creating, v, isEmail);
    SettingsOpenObject(Roles(isAdmin), required, UserOf(v), isEmail, settings);
    VariantValid(isAdmin, creating, J.Single("user", WithSettings(UserOf(v), settings)), isEmail);
  }

  /** The user object keeping only the members named in `keep`. */
  function Restricted(user: J.Value, keep: set<string>): (r: J.Value)
    requires user.Obj?
    ensures r.Obj? && r.fields.Keys == user.fields.Keys * keep
    ensures forall k :: k in r.fields ==> r.fields[k] == user.fields[k]
  {
    J.Obj(map k | k in user.fields && k in keep :: user.fields[k])
  }

  /** Without `required`, any part of a valid user object is valid. */
  lemma {:induction false} RestrictedObjectValid(roles: seq<J.Value>, required: Option<seq<string>>,
                                                 user: J.Value, isEmail: string -> bool, keep: set<string>)
    requires Valid(UserObject(roles, required), user, isEmail)
    ensures user.Obj? && Valid(UserObject(roles, None), Restricted(user, keep), isEmail)
  {
    UserObjectValid(roles, required, user, isEmail);
    UserObjectValid(roles, None, Restricted(user, keep), isEmail);
  }

  /**
   * Updating needs no particular member: any part of a payload that creating
   * accepts is accepted for updating.
   */
  lemma {:induction false} UpdateAcceptsAnySubset(isAdmin: bool, v: J.Value, isEmail: string -> bool,
                                                  keep: set<string>)
    requires Valid(Create(isAdmin), v, isEmail)
    ensures v.Obj? && "user" in v.fields && UserOf(v).Obj?
    ensures Valid(Update(isAdmin), J.Single("user", Restricted(UserOf(v), keep)), isEmail)
  {
    assert Create(isAdmin) == Variant(isAdmin, true);
    assert Update(isAdmin) == Variant(isAdmin, false);
    VariantValid(isAdmin, true, v, isEmail);
    RestrictedObjectValid(Roles(isAdmin), Some(CoreFields), UserOf(v), isEmail, keep);
    VariantValid(isAdmin, false, J.Single("user", Restricted(UserOf(v), keep)), isEmail);
  }
}
