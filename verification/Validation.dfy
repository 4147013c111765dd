/**
 Parameter validation against a JSON Schema: values are coerced field by field towards the
 declared type, in whatever order the schema's properties are enumerated, and then checked.
 */
module Validation {
  import opened Options
  import opened Messages

  datatype FloatParse = NotANumber | Finite(x: real) | NonFinite

  /** Text conversions of the standard library: lower case, and parsing of floats and 64-bit integers. */
  datatype Conversions = Conversions(
    lower: string -> string,
    parseFloat: string -> FloatParse,
    parseInt: string -> Option<int>)

  datatype ValidationError = InvalidSchema | TypeMismatch(field: string) | MissingRequired(field: string)
  datatype Report = Report(isValid: bool, errors: seq<ValidationError>, params: Json, changed: set<string>)

  /** `Panicked`: a number field held a text such as "inf" that parses to no JSON number. */
  datatype Outcome = Panicked | Checked(report: Report)

  datatype Validator = Validator(autoTransform: bool, strictMode: bool)

  const DEFAULT := Validator(true, false)
  const STRICT := Validator(false, true)

  // ----- One field

  predicate Contains(s: string, part: string) {
    part <= s || (s != "" && Contains(s[1..], part))
  }

  function FixUrl(url: string): Option<string> {
    if url == "" || "http://" <= url || "https://" <= url then None
    else if "localhost" <= url || "127.0.0.1" <= url || "0.0.0.0" <= url then Some("http://" + url)
    else if '.' in url && ' ' !in url then Some("https://" + url)
    else None
  }

  predicate IsUrlField(env: Conversions, name: string, schema: Json) {
    match AsText(Get(schema, "description"))
    case None => false
    case Some(description) =>
      || Contains(env.lower(description), "url")
      || Contains(env.lower(description), "uri")
      || Contains(env.lower(name), "url")
  }

  function ParseBool(env: Conversions, s: string): Option<bool> {
    var word := env.lower(s);
    if word in ["true", "yes", "1", "on"] then Some(true)
    else if word in ["false", "no", "0", "off"] then Some(false)
    else None
  }

  function DeclaredType(schema: Json): Option<string> {
    AsText(Get(schema, "type"))
  }

  /** The text of a number field that has no JSON number. */
  predicate Unrepresentable(env: Conversions, schema: Json, value: Json) {
    DeclaredType(schema) == Some("number") && value.Text? && env.parseFloat(value.text).NonFinite?
  }

  function Coerce(env: Conversions, name: string, schema: Json, value: Json): Json {
    if !value.Text? then value
    else
      match DeclaredType(schema)
      case None => value
      case Some(t) =>
        if t == "string" then
          if IsUrlField(env, name, schema) && FixUrl(value.text).Some? then Text(FixUrl(value.text).value) else value
        else if t == "number" then
          if env.parseFloat(value.text).Finite? then Number(env.parseFloat(value.text).x) else value
        else if t == "integer" then
          if env.parseInt(value.text).Some? then Number(env.parseInt(value.text).value as real) else value
        else if t == "boolean" then
          if ParseBool(env, value.text).Some? then Bool(ParseBool(env, value.text).value) else value
        else value
  }

  predicate HasType(value: Json, schema: Json) {
    match DeclaredType(schema)
    case None => true
    case Some(t) =>
      if t == "string" then value.Text?
      else if t == "number" then value.Number?
      else if t == "integer" then value.Number? && value.x == value.x.Floor as real
      else if t == "boolean" then value.Bool?
      else if t == "array" then value.Array?
      else if t == "object" then value.Object?
      else true
  }

  // ----- Whole parameters

  function Properties(schema: Json): map<string, Json> {
    match Get(schema, "properties")
    case Some(Object(fields)) => fields
    case _ => map[]
  }

  function CoerceAll(env: Conversions, properties: map<string, Json>, params: map<string, Json>): map<string, Json> {
    map k | k in params :: if k in properties then Coerce(env, k, properties[k], params[k]) else params[k]
  }

  function Rewritten(env: Conversions, v: Validator, schema: Json, params: Json): Json {
    if v.autoTransform && params.Object?
    then Object(CoerceAll(env, Properties(schema), params.fields)) else params
  }

  predicate Panics(env: Conversions, v: Validator, schema: Json, params: Json) {
    && v.autoTransform && schema.Object? && params.Object?
    && exists k <- params.fields :: k in Properties(schema) && Unrepresentable(env, Properties(schema)[k], params.fields[k])
  }

  predicate TypesMatch(schema: Json, params: Json) {
    params.Object? ==>
      forall k <- params.fields :: k in Properties(schema) ==> HasType(params.fields[k], Properties(schema)[k])
  }

  /** The required names, in order; entries that are not text are skipped. */
  function RequiredNames(schema: Json): seq<string> {
    match Get(schema, "required")
    case Some(Array(items)) => Names(items)
    case _ => []
  }

  function Names(items: seq<Json>): seq<string> {
    if items == [] then []
    else (if items[0].Text? then [items[0].text] else []) + Names(items[1..])
  }

  predicate HasRequired(schema: Json, params: Json) {
    params.Object? ==> forall name <- RequiredNames(schema) :: name in params.fields
  }

  predicate Accepts(schema: Json, params: Json) {
    schema.Object? && TypesMatch(schema, params) && HasRequired(schema, params)
  }

  // ----- The same in terms of the JSON itself

  ghost predicate Declares(schema: Json, t: string) {
    schema.Object? && "type" in schema.fields && schema.fields["type"] == Text(t)
  }

  /** The schema gives p for the property k. */
  ghost predicate Describes(schema: Json, k: string, p: Json) {
    && schema.Object? && "properties" in schema.fields && schema.fields["properties"].Object?
    && k in schema.fields["properties"].fields && schema.fields["properties"].fields[k] == p
  }

  /** The i-th required name of the schema. */
  ghost predicate RequiresAt(schema: Json, i: nat, name: string) {
    && schema.Object? && "required" in schema.fields && schema.fields["required"].Array?
    && i < |schema.fields["required"].items| && schema.fields["required"].items[i] == Text(name)
  }

  ghost predicate OccursAt(part: string, s: string, i: nat) {
    i + |part| <= |s| && s[i..i + |part|] == part
  }

  ghost predicate Occurs(part: string, s: string) {
    exists i: nat :: OccursAt(part, s, i)
  }

  ghost predicate Equals(x: real, i: int) {
    x == i as real
  }

  /** The description speaks of a URL, or there is one and the name does. */
  ghost predicate HintsAtUrl(env: Conversions, name: string, schema: Json) {
    && schema.Object? && "description" in schema.fields && schema.fields["description"].Text?
    && var description := env.lower(schema.fields["description"].text);
       Occurs("url", description) || Occurs("uri", description) || Occurs("url", env.lower(name))
  }

  ghost predicate Affirms(word: string) {
    word in {"true", "yes", "1", "on"}
  }

  ghost predicate Denies(word: string) {
    word in {"false", "no", "0", "off"}
  }

  ghost predicate Prefixes(s: string, prefixes: set<string>) {
    exists p <- prefixes :: p <= s
  }

  /** What becomes of a text: the value it stands for in the declared type, or the text itself. */
  ghost predicate TextBecomes(env: Conversions, name: string, schema: Json, s: string, newValue: Json) {
    && (Declares(schema, "boolean") ==>
          && (newValue == Bool(true) <==> Affirms(env.lower(s)))
          && (newValue == Bool(false) <==> Denies(env.lower(s)))
          && (newValue.Bool? || newValue == Text(s)))
    && (Declares(schema, "number") ==>
          && (forall x :: newValue == Number(x) <==> env.parseFloat(s) == Finite(x))
          && (newValue.Number? || newValue == Text(s)))
    && (Declares(schema, "integer") ==>
          && (forall i: int :: newValue == Number(i as real) <==> env.parseInt(s) == Some(i))
          && (env.parseInt(s).None? ==> newValue == Text(s)))
    && (Declares(schema, "string") ==>
          if !HintsAtUrl(env, name, schema) || s == "" || Prefixes(s, {"http://", "https://"}) then newValue == Text(s)
          else if Prefixes(s, {"localhost", "127.0.0.1", "0.0.0.0"}) then newValue == Text("http://" + s)
          else if '.' in s && ' ' !in s then newValue == Text("https://" + s)
          else newValue == Text(s))
    && ((forall t <- {"boolean", "number", "integer", "string"} :: !Declares(schema, t)) ==> newValue == Text(s))
  }

  ghost predicate Becomes(env: Conversions, name: string, schema: Json, value: Json, newValue: Json) {
    if value.Text? then TextBecomes(env, name, schema, value.text, newValue) else newValue == value
  }

  /** The value has the type that the schema declares, if it declares one of the six. */
  ghost predicate Conforms(value: Json, schema: Json) {
    && (Declares(schema, "string") ==> value.Text?)
    && (Declares(schema, "number") ==> value.Number?)
    && (Declares(schema, "integer") ==> value.Number? && exists i: int :: Equals(value.x, i))
    && (Declares(schema, "boolean") ==> value.Bool?)
    && (Declares(schema, "array") ==> value.Array?)
    && (Declares(schema, "object") ==> value.Object?)
  }

  /** Every described field conforms. */
  ghost predicate FieldsConform(schema: Json, params: Json) {
    params.Object? ==> forall k, p :: Describes(schema, k, p) && k in params.fields ==> Conforms(params.fields[k], p)
  }

  /** The field is there and does not conform to its description. */
  ghost predicate IsMismatched(schema: Json, params: Json, field: string) {
    && params.Object? && field in params.fields
    && exists p :: Describes(schema, field, p) && !Conforms(params.fields[field], p)
  }

  /** The field is the first required one that is not there. */
  ghost predicate IsFirstMissing(schema: Json, params: Json, field: string) {
    && params.Object? && field !in params.fields
    && exists i :: RequiresAt(schema, i, field)
         && forall j: nat, name :: j < i && RequiresAt(schema, j, name) ==> name in params.fields
  }

  /** Every required field is there. */
  ghost predicate IsComplete(schema: Json, params: Json) {
    params.Object? ==> forall i, name :: RequiresAt(schema, i, name) ==> name in params.fields
  }

  /** Every field of newParams is what the described one became, or an undescribed one unchanged. */
  ghost predicate ParamsBecome(env: Conversions, schema: Json, params: Json, newParams: Json) {
    && params.Object? && newParams.Object? && newParams.fields.Keys == params.fields.Keys
    && forall k <- params.fields ::
         && (forall p :: Describes(schema, k, p) ==> Becomes(env, k, p, params.fields[k], newParams.fields[k]))
         && ((forall p :: !Describes(schema, k, p)) ==> newParams.fields[k] == params.fields[k])
  }

  lemma {:induction false} ContainsIffOccurs(s: string, part: string)
    ensures Contains(s, part) <==> Occurs(part, s)
  {
    assert part <= s <==> OccursAt(part, s, 0);
    if s != "" {
      ContainsIffOccurs(s[1..], part);
      forall i: nat ensures OccursAt(part, s, i + 1) <==> OccursAt(part, s[1..], i) {
        OccursLater(part, s, i);
      }
      hide OccursAt, Contains;
      if i: nat :| OccursAt(part, s, i) && i > 0 {
        assert OccursAt(part, s[1..], i - 1);
      }
    }
  }

  lemma OccursLater(part: string, s: string, i: nat)
    requires s != ""
    ensures OccursAt(part, s, i + 1) <==> OccursAt(part, s[1..], i)
  {
    if i + 1 + |part| <= |s| {
      assert s[1..][i..i + |part|] == s[i + 1..i + 1 + |part|];
    }
  }

  lemma UrlFieldIffHinted(env: Conversions, name: string, schema: Json)
    ensures IsUrlField(env, name, schema) <==> HintsAtUrl(env, name, schema)
  {
    if schema.Object? && "description" in schema.fields && schema.fields["description"].Text? {
      var description := env.lower(schema.fields["description"].text);
      ContainsIffOccurs(description, "url");
      ContainsIffOccurs(description, "uri");
      ContainsIffOccurs(env.lower(name), "url");
    }
    hide Contains, Occurs;
  }

  /** The coercion is the one value that a field becomes. */
  lemma CoercionIsBecoming(env: Conversions, name: string, schema: Json, value: Json, newValue: Json)
    ensures Becomes(env, name, schema, value, newValue) <==> newValue == Coerce(env, name, schema, value)
  {
    if value.Text? {
      if Declares(schema, "boolean") {
        BooleanBecomes(env, name, schema, value.text, newValue);
      } else if Declares(schema, "string") {
        StringBecomes(env, name, schema, value.text, newValue);
      } else if Declares(schema, "number") {
        NumberBecomes(env, name, schema, value.text, newValue);
      } else if Declares(schema, "integer") {
        IntegerBecomes(env, name, schema, value.text, newValue);
      }
    }
  }

  lemma BooleanBecomes(env: Conversions, name: string, schema: Json, s: string, newValue: Json)
    requires Declares(schema, "boolean")
    ensures TextBecomes(env, name, schema, s, newValue) <==> newValue == Coerce(env, name, schema, Text(s))
  {
    ParseBoolReads(env, s);
    hide ParseBool, Affirms, Denies;
  }

  lemma StringBecomes(env: Conversions, name: string, schema: Json, s: string, newValue: Json)
    requires Declares(schema, "string")
    ensures TextBecomes(env, name, schema, s, newValue) <==> newValue == Coerce(env, name, schema, Text(s))
  {
    UrlFieldIffHinted(env, name, schema);
    UrlPrefixes(s);
    hide IsUrlField, HintsAtUrl, Prefixes, FixUrl;
  }

  lemma NumberBecomes(env: Conversions, name: string, schema: Json, s: string, newValue: Json)
    requires Declares(schema, "number")
    ensures TextBecomes(env, name, schema, s, newValue) <==> newValue == Coerce(env, name, schema, Text(s))
  {
    if newValue.Number? {
      assert newValue == Number(newValue.x);
      assert env.parseFloat(s) == Finite(newValue.x) <==> newValue == Coerce(env, name, schema, Text(s));
    } else if env.parseFloat(s).Finite? {
      assert newValue != Number(env.parseFloat(s).x);
      assert env.parseFloat(s) == Finite(env.parseFloat(s).x);
    }
  }

  lemma IntegerBecomes(env: Conversions, name: string, schema: Json, s: string, newValue: Json)
    requires Declares(schema, "integer")
    ensures TextBecomes(env, name, schema, s, newValue) <==> newValue == Coerce(env, name, schema, Text(s))
  {
    if env.parseInt(s).Some? {
      var i := env.parseInt(s).value;
      assert env.parseInt(s) == Some(i);
      assert newValue == Coerce(env, name, schema, Text(s)) <==> newValue == Number(i as real);
    }
  }

  lemma ParseBoolReads(env: Conversions, s: string)
    ensures ParseBool(env, s) == Some(true) <==> Affirms(env.lower(s))
    ensures ParseBool(env, s) == Some(false) <==> Denies(env.lower(s))
  {
  }

  lemma UrlPrefixes(s: string)
    ensures FixUrl(s)
         == if s == "" || Prefixes(s, {"http://", "https://"}) then None
            else if Prefixes(s, {"localhost", "127.0.0.1", "0.0.0.0"}) then Some("http://" + s)
            else if '.' in s && ' ' !in s then Some("https://" + s)
            else None
  {
  }

  lemma HasTypeIffConforms(value: Json, schema: Json)
    ensures HasType(value, schema) <==> Conforms(value, schema)
  {
    forall t ensures Declares(schema, t) <==> DeclaredType(schema) == Some(t) {
    }
    if value.Number? && value.x == value.x.Floor as real {
      assert Equals(value.x, value.x.Floor);
    }
  }

  lemma PropertyIffDescribed(schema: Json, k: string, p: Json)
    ensures k in Properties(schema) && Properties(schema)[k] == p <==> Describes(schema, k, p)
  {
  }

  lemma TypesMatchIffConform(schema: Json, params: Json)
    ensures TypesMatch(schema, params) <==> FieldsConform(schema, params)
  {
    forall k, p ensures k in Properties(schema) && Properties(schema)[k] == p <==> Describes(schema, k, p) {
      PropertyIffDescribed(schema, k, p);
    }
    forall value, p ensures HasType(value, p) <==> Conforms(value, p) {
      HasTypeIffConforms(value, p);
    }
    hide HasType, Conforms, Describes, Properties;
    if params.Object? {
      forall k <- params.fields | k in Properties(schema) ensures Describes(schema, k, Properties(schema)[k]) {
      }
    }
  }

  lemma RewritingIsBecoming(env: Conversions, v: Validator, schema: Json, params: Json)
    requires v.autoTransform && params.Object?
    ensures ParamsBecome(env, schema, params, Rewritten(env, v, schema, params))
  {
    var properties := Properties(schema);
    forall k, p ensures k in properties && properties[k] == p <==> Describes(schema, k, p) {
      PropertyIffDescribed(schema, k, p);
    }
    forall k <- params.fields | k in properties
      ensures Becomes(env, k, properties[k], params.fields[k], Coerce(env, k, properties[k], params.fields[k]))
    {
      CoercionIsBecoming(env, k, properties[k], params.fields[k], Coerce(env, k, properties[k], params.fields[k]));
    }
    hide Becomes, Coerce, Describes, Properties;
    var newParams := Rewritten(env, v, schema, params);
    forall k <- params.fields
      ensures forall p :: Describes(schema, k, p) ==> Becomes(env, k, p, params.fields[k], newParams.fields[k])
      ensures (forall p :: !Describes(schema, k, p)) ==> newParams.fields[k] == params.fields[k]
    {
      if k in properties {
        assert Describes(schema, k, properties[k]);
      }
    }
  }

  /** The required names are the text entries of the schema's list, in its order. */
  lemma {:induction false} NamesInOrder(items: seq<Json>) returns (at: seq<nat>)
    ensures |at| == |Names(items)| && forall i, j :: 0 <= i < j < |at| ==> at[i] < at[j]
    ensures forall i :: 0 <= i < |at| ==> at[i] < |items| && items[at[i]] == Text(Names(items)[i])
    ensures forall t: nat :: t < |items| && items[t].Text? ==> t in at
  {
    if items == [] {
      at := [];
    } else {
      var n := |items| - 1;
      at := NamesInOrder(items[..n]);
      NamesAppend(items[..n], items[n]);
      assert items[..n] + [items[n]] == items;
      hide Names;
      assert forall i :: 0 <= i < |at| ==> at[i] < n;
      if items[n].Text? {
        at := at + [n];
      }
    }
  }

  lemma {:induction false} NamesAppend(items: seq<Json>, item: Json)
    ensures Names(items + [item]) == Names(items) + (if item.Text? then [item.text] else [])
  {
    if items == [] {
      assert items + [item] == [item] && [item][1..] == [];
    } else {
      assert (items + [item])[1..] == items[1..] + [item];
      NamesAppend(items[1..], item);
      var first, last := if items[0].Text? then [items[0].text] else [], if item.Text? then [item.text] else [];
      assert first + (Names(items[1..]) + last) == (first + Names(items[1..])) + last;
    }
  }

  /** A missing required name, with nothing missing before it, is the first missing entry of the schema's list. */
  lemma FirstMissing(schema: Json, params: Json, i: nat) returns (t: nat)
    requires params.Object? && i < |RequiredNames(schema)| && RequiredNames(schema)[i] !in params.fields
    requires forall j :: 0 <= j < i ==> RequiredNames(schema)[j] in params.fields
    ensures RequiresAt(schema, t, RequiredNames(schema)[i])
    ensures forall u: nat, name :: u < t && RequiresAt(schema, u, name) ==> name in params.fields
  {
    var at := NamesInOrder(schema.fields["required"].items);
    t := at[i];
    forall u: nat, name | u < t && RequiresAt(schema, u, name) ensures name in params.fields {
      var j :| 0 <= j < |at| && at[j] == u;
      assert j < i;
    }
  }

  lemma CompleteIffRequired(schema: Json, params: Json)
    ensures HasRequired(schema, params) <==> IsComplete(schema, params)
  {
    if params.Object? && schema.Object? && "required" in schema.fields && schema.fields["required"].Array? {
      var items := schema.fields["required"].items;
      var at := NamesInOrder(items);
      hide Names;
      forall i, name | RequiresAt(schema, i, name) ensures name in RequiredNames(schema) {
        assert i in at;
        var x :| 0 <= x < |at| && at[x] == i;
        assert Names(items)[x] == name;
      }
      forall name <- RequiredNames(schema) ensures exists i :: RequiresAt(schema, i, name) {
        var x :| 0 <= x < |Names(items)| && Names(items)[x] == name;
        assert RequiresAt(schema, at[x], name);
      }
    }
  }

  // ----- The validator

  method TransformField(env: Conversions, name: string, schema: Json, value: Json)
    returns (panicked: bool, newValue: Json, changed: bool)
    ensures panicked <==> Unrepresentable(env, schema, value)
    ensures !panicked ==> newValue == Coerce(env, name, schema, value)
    ensures !panicked ==> Becomes(env, name, schema, value, newValue)
    ensures !panicked ==> (changed <==> newValue != value)
  {
    CoercionIsBecoming(env, name, schema, value, Coerce(env, name, schema, value));
    hide Becomes, Contains, ParseBool;
    panicked, newValue, changed := false, value, false;
    var declared := DeclaredType(schema);
    if declared == Some("string") && IsUrlField(env, name, schema) && newValue.Text? {
      var fixed := FixUrl(newValue.text);
      if fixed.Some? {
        assert fixed.value != value.text by { FixedUrlIsFixed(value.text); }
        newValue, changed := Text(fixed.value), true;
      }
    }
    if declared == Some("number") && newValue.Text? {
      match env.parseFloat(newValue.text) {
        case NotANumber =>
        case NonFinite => return true, newValue, changed;
        case Finite(x) => newValue, changed := Number(x), true;
      }
    }
    if declared == Some("integer") && newValue.Text? {
      if env.parseInt(newValue.text).Some? {
        newValue, changed := Number(env.parseInt(newValue.text).value as real), true;
      }
    }
    if declared == Some("boolean") && newValue.Text? {
      if ParseBool(env, newValue.text).Some? {
        newValue, changed := Bool(ParseBool(env, newValue.text).value), true;
      }
    }
  }

  /** The rewriting does not depend on the order of the properties. */
  method ApplyTransformations(env: Conversions, properties: map<string, Json>, params: map<string, Json>)
    returns (panicked: bool, newParams: map<string, Json>, changed: set<string>)
    ensures panicked <==> exists k <- params :: k in properties && Unrepresentable(env, properties[k], params[k])
    ensures !panicked ==> newParams == CoerceAll(env, properties, params)
    ensures !panicked ==>
              forall k :: k in changed <==> k in params && CoerceAll(env, properties, params)[k] != params[k]
  {
    newParams, changed := params, {};
    var rest := properties.Keys;
    while rest != {}
      invariant rest <= properties.Keys
      invariant newParams.Keys == params.Keys
      invariant forall k <- params :: newParams[k]
                  == if k in properties && k !in rest then Coerce(env, k, properties[k], params[k]) else params[k]
      invariant forall k <- params :: k in properties && k !in rest ==> !Unrepresentable(env, properties[k], params[k])
      invariant forall k :: k in changed <==> k in params && newParams[k] != params[k]
    {
      var name :| name in rest;
      rest := rest - {name};
      if name in newParams {
        var p, value, c := TransformField(env, name, properties[name], newParams[name]);
        if p {
          return true, newParams, changed;
        }
        newParams := newParams[name := value];
        if c {
          changed := changed + {name};
        }
      }
    }
    panicked := false;
  }

  /** Reports some field of the wrong type, if there is one. */
  method ValidateAgainstSchema(schema: Json, params: Json) returns (error: Option<ValidationError>)
    ensures error.None? <==> FieldsConform(schema, params)
    ensures error.Some? ==> error.value.TypeMismatch? && IsMismatched(schema, params, error.value.field)
  {
    TypesMatchIffConform(schema, params);
    hide HasType, Conforms, FieldsConform;
    if !params.Object? {
      return None;
    }
    var properties := Properties(schema);
    var rest := properties.Keys;
    while rest != {}
      invariant rest <= properties.Keys
      invariant forall k <- params.fields :: k in properties && k !in rest ==> HasType(params.fields[k], properties[k])
    {
      var name :| name in rest;
      rest := rest - {name};
      if name in params.fields && !HasType(params.fields[name], properties[name]) {
        HasTypeIffConforms(params.fields[name], properties[name]);
        PropertyIffDescribed(schema, name, properties[name]);
        return Some(TypeMismatch(name));
      }
    }
    return None;
  }

  /** Reports the first required field that is missing. */
  method CheckRequiredFields(schema: Json, params: Json) returns (error: Option<ValidationError>)
    ensures error.None? <==> IsComplete(schema, params)
    ensures error.Some? ==> error.value.MissingRequired? && IsFirstMissing(schema, params, error.value.field)
  {
    CompleteIffRequired(schema, params);
    hide IsComplete;
    if !params.Object? {
      return None;
    }
    var names := RequiredNames(schema);
    for i := 0 to |names|
      invariant forall j :: 0 <= j < i ==> names[j] in params.fields
    {
      if names[i] !in params.fields {
        ghost var t := FirstMissing(schema, params, i);
        return Some(MissingRequired(names[i]));
      }
    }
    return None;
  }

  method Validate(env: Conversions, v: Validator, schema: Json, params: Json) returns (outcome: Outcome)
    ensures outcome.Panicked? <==> Panics(env, v, schema, params)
    ensures outcome.Checked? ==>
              var report := outcome.report;
              && (report.isValid <==> Accepts(schema, Rewritten(env, v, schema, params)))
              && (report.isValid <==> report.errors == [])
              && report.params == (if schema.Object? then Rewritten(env, v, schema, params) else params)
              && (report.changed == {} <==> report.params == params)
    ensures outcome.Panicked? <==>
            && v.autoTransform && schema.Object? && params.Object?
            && exists k, p :: Describes(schema, k, p) && k in params.fields && Declares(p, "number")
                 && params.fields[k].Text? && env.parseFloat(params.fields[k].text).NonFinite?
    ensures outcome.Checked? ==>
              var report := outcome.report;
              && (schema.Object? && v.autoTransform && params.Object? ==> ParamsBecome(env, schema, params, report.params))
              && (!(schema.Object? && v.autoTransform && params.Object?) ==> report.params == params)
              && (report.isValid <==>
                  schema.Object? && FieldsConform(schema, report.params) && IsComplete(schema, report.params))
              && (!schema.Object? ==> report.errors == [InvalidSchema])
              && (schema.Object? ==>
                    && |report.errors| == (if FieldsConform(schema, report.params) then 0 else 1)
                                          + (if IsComplete(schema, report.params) then 0 else 1)
                    && forall e <- report.errors ::
                         || (e.TypeMismatch? && IsMismatched(schema, report.params, e.field))
                         || (e.MissingRequired? && IsFirstMissing(schema, report.params, e.field)))
              && (forall k :: k in report.changed <==>
                    && params.Object? && report.params.Object?
                    && k in params.fields && k in report.params.fields && report.params.fields[k] != params.fields[k])
  {
    hide IsMismatched, IsFirstMissing, FieldsConform, IsComplete, ParamsBecome, Describes, Declares, TypesMatch, HasRequired, Unrepresentable;
    PanicsIffNonFinite(env, v, schema, params);
    if v.autoTransform && params.Object? {
      RewritingIsBecoming(env, v, schema, params);
    }
    TypesMatchIffConform(schema, Rewritten(env, v, schema, params));
    CompleteIffRequired(schema, Rewritten(env, v, schema, params));
    if !schema.Object? {
      return Checked(Report(false, [InvalidSchema], params, {}));
    }
    var newParams, changed := params, {};
    if v.autoTransform && params.Object? {
      var panicked, fields, names := ApplyTransformations(env, Properties(schema), params.fields);
      if panicked {
        return Panicked;
      }
      newParams, changed := Object(fields), names;
    }
    assert newParams == Rewritten(env, v, schema, params);
    hide Rewritten;
    var errors := [];
    var mismatch := ValidateAgainstSchema(schema, newParams);
    if mismatch.Some? {
      errors := errors + [mismatch.value];
    }
    var missing := CheckRequiredFields(schema, newParams);
    if missing.Some? {
      errors := errors + [missing.value];
    }
    outcome := Checked(Report(errors == [], errors, newParams, changed));
  }

  /** The text "inf" parses to a float that is no JSON number; in a number field it panics, unless nothing is transformed. */
  lemma InfinityPanics(env: Conversions, name: string)
    requires env.parseFloat("inf").NonFinite?
    ensures var schema := Object(map["properties" := Object(map[name := Object(map["type" := Text("number")])])]);
            var params := Object(map[name := Text("inf")]);
            Panics(env, DEFAULT, schema, params) && !Panics(env, STRICT, schema, params)
  {
    var params := map[name := Text("inf")];
    assert name in params;
  }

  lemma PanicsIffNonFinite(env: Conversions, v: Validator, schema: Json, params: Json)
    ensures Panics(env, v, schema, params) <==>
            && v.autoTransform && schema.Object? && params.Object?
            && exists k, p :: Describes(schema, k, p) && k in params.fields && Declares(p, "number")
                 && params.fields[k].Text? && env.parseFloat(params.fields[k].text).NonFinite?
  {
    if params.Object? {
      forall k, p ensures k in Properties(schema) && Properties(schema)[k] == p <==> Describes(schema, k, p) {
        PropertyIffDescribed(schema, k, p);
      }
      hide Describes, Properties;
      if Panics(env, v, schema, params) {
        var k :| k in params.fields && k in Properties(schema)
                 && Unrepresentable(env, Properties(schema)[k], params.fields[k]);
        assert Describes(schema, k, Properties(schema)[k]);
      }
    }
  }

  // ----- Properties of the rewriting

  lemma FixedUrlIsFixed(url: string)
    requires FixUrl(url).Some?
    ensures FixUrl(FixUrl(url).value) == None
    ensures FixUrl(url).value != url
  {
  }

  lemma CoerceIsIdempotent(env: Conversions, name: string, schema: Json, value: Json)
    ensures Coerce(env, name, schema, Coerce(env, name, schema, value)) == Coerce(env, name, schema, value)
    ensures !Unrepresentable(env, schema, value) ==> !Unrepresentable(env, schema, Coerce(env, name, schema, value))
  {
    if value.Text? && FixUrl(value.text).Some? {
      FixedUrlIsFixed(value.text);
    }
  }

  /** A second validation finds nothing to rewrite, does not panic if the first did not, and keeps every key. */
  lemma RewritingIsIdempotent(env: Conversions, v: Validator, schema: Json, params: Json)
    ensures var once := Rewritten(env, v, schema, params);
            && Rewritten(env, v, schema, once) == once
            && (!Panics(env, v, schema, params) ==> !Panics(env, v, schema, once))
            && (params.Object? ==> once.Object? && once.fields.Keys == params.fields.Keys)
  {
    if v.autoTransform && params.Object? {
      var properties := Properties(schema);
      forall k <- params.fields | k in properties
        ensures Coerce(env, k, properties[k], Coerce(env, k, properties[k], params.fields[k]))
             == Coerce(env, k, properties[k], params.fields[k])
        ensures !Unrepresentable(env, properties[k], params.fields[k])
                ==> !Unrepresentable(env, properties[k], Coerce(env, k, properties[k], params.fields[k]))
      {
        CoerceIsIdempotent(env, k, properties[k], params.fields[k]);
      }
      assert CoerceAll(env, properties, CoerceAll(env, properties, params.fields))
          == CoerceAll(env, properties, params.fields);
    }
  }

  /** Validating twice is validating once. */
  method ValidateTwice(env: Conversions, v: Validator, schema: Json, params: Json) returns (first: Outcome, second: Outcome)
    ensures first.Checked? ==>
              && second.Checked?
              && second.report.params == first.report.params
              && second.report.changed == {}
              && second.report.isValid == first.report.isValid
  {
    first := Validate(env, v, schema, params);
    second := first;
    if first.Checked? {
      RewritingIsIdempotent(env, v, schema, params);
      second := Validate(env, v, schema, first.report.params);
    }
  }

  /** A field has its declared type after coercion exactly when it had it before or its text converts. */
  lemma CoercedHasTypeIff(env: Conversions, name: string, schema: Json, value: Json)
    ensures HasType(Coerce(env, name, schema, value), schema) <==>
            || HasType(value, schema)
            || (value.Text? && DeclaredType(schema) == Some("number") && env.parseFloat(value.text).Finite?)
            || (value.Text? && DeclaredType(schema) == Some("integer") && env.parseInt(value.text).Some?)
            || (value.Text? && DeclaredType(schema) == Some("boolean") && ParseBool(env, value.text).Some?)
  {
  }

  lemma CoercionKeepsType(env: Conversions, name: string, schema: Json, value: Json)
    requires HasType(value, schema)
    ensures HasType(Coerce(env, name, schema, value), schema)
    ensures !Unrepresentable(env, schema, value)
  {
  }

  /** What the strict validator accepts, the default one accepts too, without a panic. */
  lemma StrictImpliesDefault(env: Conversions, schema: Json, params: Json)
    requires Accepts(schema, Rewritten(env, STRICT, schema, params))
    ensures !Panics(env, DEFAULT, schema, params)
    ensures Accepts(schema, Rewritten(env, DEFAULT, schema, params))
  {
    if params.Object? {
      var properties := Properties(schema);
      forall k <- params.fields | k in properties
        ensures HasType(Coerce(env, k, properties[k], params.fields[k]), properties[k])
        ensures !Unrepresentable(env, properties[k], params.fields[k])
      {
        CoercionKeepsType(env, k, properties[k], params.fields[k]);
      }
    }
  }
}
