/**
 * The subset of JSON Schema (draft-07) validation that the user validators
 * use: `type`, `enum` (section 6.1 of JSON Schema Validation draft-07),
 * `minLength`, `maxLength`, `pattern` (section 6.3), `items` (section 6.4),
 * `properties`, `required`, `patternProperties`, `additionalProperties`
 * (section 6.5) and the `email` format (section 7.3.2). Each keyword
 * constrains only values of the kind it is about; a keyword that is absent
 * constrains nothing.
 */
module JsonSchema {
  import opened Wrappers
  import J = Json

  datatype JsonType = NullType | BooleanType | NumberType | IntegerType | StringType | ArrayType | ObjectType

  /** The one regular expression the schemas use: `^[a-f\d]{24}$`, a MongoDB object id. */
  datatype Pattern = ObjectIdPattern

  datatype Format = EmailFormat

  /** A schema; every keyword defaults to "absent". */
  datatype Schema = Schema(
    typ: Option<JsonType> := None,
    enumValues: Option<seq<J.Value>> := None,
    minLength: Option<nat> := None,
    maxLength: Option<nat> := None,
    pattern: Option<Pattern> := None,
    format: Option<Format> := None,
    items: Option<Schema> := None,
    properties: map<string, Schema> := map[],
    required: Option<seq<string>> := None,
    patternProperties: map<Pattern, Schema> := map[],
    additionalProperties: bool := true)

  predicate IsHexDigit(c: char) {
    ('a' <= c <= 'f') || ('0' <= c <= '9')
  }

  /** A MongoDB object id in hexadecimal: 24 characters from `[a-f0-9]`. */
  predicate IsObjectId(s: string) {
    |s| == 24 && forall i :: 0 <= i < |s| ==> IsHexDigit(s[i])
  }

  /** Whether `s` matches the pattern (anchored at both ends). */
  predicate PatternMatches(p: Pattern, s: string) {
    match p
    case ObjectIdPattern => IsObjectId(s)
  }

  predicate HasType(t: JsonType, v: J.Value) {
    match t
    case NullType => v.Null?
    case BooleanType => v.Bool?
    case NumberType => v.Num?
    case IntegerType => v.Num?
    case StringType => v.Str?
    case ArrayType => v.Arr?
    case ObjectType => v.Obj?
  }

  /** Lengths count Unicode code points. */
  predicate StringOk(s: Schema, str: string, isEmail: string -> bool) {
    && (s.minLength.Some? ==> |str| >= s.minLength.value)
    && (s.maxLength.Some? ==> |str| <= s.maxLength.value)
    && (s.pattern.Some? ==> PatternMatches(s.pattern.value, str))
    && (s.format == Some(EmailFormat) ==> isEmail(str))
  }

  /** A member name that `properties` or `patternProperties` speaks about. */
  predicate Declared(s: Schema, key: string) {
    key in s.properties || exists p :: p in s.patternProperties && PatternMatches(p, key)
  }

  /**
   * Whether `v` is valid against `s`. The email format check is a parameter:
   * `isEmail` decides which strings are email addresses.
   */
  predicate Valid(s: Schema, v: J.Value, isEmail: string -> bool)
    ensures s == Schema() ==> Valid(s, v, isEmail)
    decreases v
  {
    && (s.typ.Some? ==> HasType(s.typ.value, v))
    && (s.enumValues.Some? ==> v in s.enumValues.value)
    && (v.Str? ==> StringOk(s, v.s, isEmail))
    && (v.Arr? && s.items.Some? ==>
          forall i :: 0 <= i < |v.items| ==> Valid(s.items.value, v.items[i], isEmail))
    && (v.Obj? ==>
          && (forall k :: k in v.fields && k in s.properties ==>
                Valid(s.properties[k], v.fields[k], isEmail))
          && (s.required.Some? ==> forall k :: k in s.required.value ==> k in v.fields)
          && (forall k, p :: k in v.fields && p in s.patternProperties && PatternMatches(p, k) ==>
                Valid(s.patternProperties[p], v.fields[k], isEmail))
          && (!s.additionalProperties ==> forall k :: k in v.fields ==> Declared(s, k)))
  }
}
