/** The rendered settings document and the JSON Schema it is checked against before anything is
    written (crates/config-compiler/src/render.rs, crates/config-schema/src/lib.rs). Keyword
    meanings follow JSON Schema Validation draft-07: sections 6.1.1 type, 6.2.4 minimum,
    6.3.2 minLength, 6.3.3 pattern, 6.4.1 items, 6.4.4 minItems, 6.5.3 required, 6.5.4 properties. */
module Schema {
  import opened Strings
  import opened Regex
  import opened Validators
  import opened Grouping
  import T = Thresholds

  datatype Json =
    | JNull
    | JNumber(number: T.F64)
    | JString(text: string)
    | JArray(elements: seq<Json>)
    | JObject(fields: seq<Field>)

  datatype Field = Field(name: string, value: Json)

  datatype Type = TObject | TArray | TString | TNumber | TInteger

  datatype Schema = Schema(typ: Type, minimum: Option<nat>, minLength: nat, pattern: Option<Re>,
                           required: seq<string>, properties: seq<Property>, items: Option<Schema>, minItems: nat)

  datatype Property = Property(name: string, schema: Schema)

  function Get(fields: seq<Field>, name: string): Option<Json> {
    if fields == [] then None
    else if fields[0].name == name then Some(fields[0].value)
    else Get(fields[1..], name)
  }

  predicate IsIntegral(f: T.F64) {
    f.Finite? && f.magnitude.mantissa % T.Pow10(f.magnitude.scale) == 0
  }

  predicate HasType(typ: Type, j: Json) {
    match typ
    case TObject => j.JObject?
    case TArray => j.JArray?
    case TString => j.JString?
    case TNumber => j.JNumber?
    case TInteger => j.JNumber? && IsIntegral(j.number)
  }

  ghost predicate Valid(s: Schema, j: Json)
    decreases s
  {
    && HasType(s.typ, j)
    && (j.JNumber? && s.minimum.Some? ==> j.number.Finite? && T.Value(j.number) >= s.minimum.value as real)
    && (j.JString? ==> |j.text| >= s.minLength && (s.pattern.Some? ==> Matches(s.pattern.value, j.text)))
    && (j.JArray? ==>
          && |j.elements| >= s.minItems
          && (s.items.Some? ==> forall i :: 0 <= i < |j.elements| ==> Valid(s.items.value, j.elements[i])))
    && (j.JObject? ==>
          && (forall i :: 0 <= i < |s.required| ==> Get(j.fields, s.required[i]).Some?)
          && (forall i :: 0 <= i < |s.properties| && Get(j.fields, s.properties[i].name).Some? ==>
                Valid(s.properties[i].schema, Get(j.fields, s.properties[i].name).value)))
  }

  // ------------------------------------------------------------------------
  // settings_schema
  // ------------------------------------------------------------------------

  function Simple(typ: Type): Schema { Schema(typ, None, 0, None, [], [], None, 0) }

  function NonEmptyString(): Schema { Simple(TString).(minLength := 1) }

  predicate IsIdChar(c: char) { IsAlnum(c) || c == '_' }

  /** `^tenant_[a-z0-9_]+$` */
  function SettingsIdRe(): Re { Literal("tenant_", Rep(Cls(IsIdChar), 1, None)) }

  function ActionsSchema(): Schema {
    Simple(TObject).(required := ["reject", "add_header", "greylist"],
                     properties := [Property("reject", Simple(TNumber)), Property("add_header", Simple(TNumber)),
                                    Property("greylist", Simple(TNumber))])
  }

  function TenantSchema(): Schema {
    Simple(TObject).(required := ["slug", "settings_id", "domains", "actions"],
                     properties := [Property("slug", NonEmptyString()),
                                    Property("settings_id", Simple(TString).(pattern := Some(SettingsIdRe()))),
                                    Property("domains", Simple(TArray).(minItems := 1, items := Some(NonEmptyString()))),
                                    Property("actions", ActionsSchema())])
  }

  function SettingsSchema(): Schema {
    Simple(TObject).(required := ["version", "tenants"],
                     properties := [Property("version", Simple(TInteger).(minimum := Some(1))),
                                    Property("tenants", Simple(TArray).(items := Some(TenantSchema())))])
  }

  // ------------------------------------------------------------------------
  // render_doc
  // ------------------------------------------------------------------------

  /** A float as a JSON value: there is no number for an infinite or undefined one. */
  function NumberOf(f: T.F64): Json { if f.Finite? then JNumber(f) else JNull }

  function StringsOf(ss: seq<string>): (js: seq<Json>)
    ensures |js| == |ss| && forall i :: 0 <= i < |ss| ==> js[i] == JString(ss[i])
  {
    seq(|ss|, i requires 0 <= i < |ss| => JString(ss[i]))
  }

  function ActionsDoc(p: T.Policy): Json {
    JObject([Field("reject", NumberOf(p.reject)), Field("add_header", NumberOf(p.addHeader)),
             Field("greylist", NumberOf(p.greylist))])
  }

  function TenantDoc(p: TenantPolicy): Json {
    JObject([Field("slug", JString(p.slug)), Field("settings_id", JString(p.settingsId)),
             Field("domains", JArray(StringsOf(p.domains))), Field("actions", ActionsDoc(p.policy))])
  }

  function TenantDocs(ps: seq<TenantPolicy>): (js: seq<Json>)
    ensures |js| == |ps| && forall i :: 0 <= i < |ps| ==> js[i] == TenantDoc(ps[i])
  {
    seq(|ps|, i requires 0 <= i < |ps| => TenantDoc(ps[i]))
  }

  function RenderDoc(ps: seq<TenantPolicy>): Json {
    JObject([Field("version", JNumber(T.Whole(1))), Field("tenants", JArray(TenantDocs(ps)))])
  }

  /** The document holds what the policies hold: for every list, each tenant's slug, id, domains in
      order and the three thresholds under their names. */
  lemma DocumentHolds(ps: seq<TenantPolicy>, i: nat)
    requires i < |ps|
    ensures var doc := RenderDoc(ps);
            && doc.JObject? && Get(doc.fields, "version") == Some(JNumber(T.Whole(1)))
            && Get(doc.fields, "tenants") == Some(JArray(TenantDocs(ps))) && |TenantDocs(ps)| == |ps|
            && var t := TenantDocs(ps)[i];
               && t.JObject? && Get(t.fields, "slug") == Some(JString(ps[i].slug))
               && Get(t.fields, "settings_id") == Some(JString(ps[i].settingsId))
               && Get(t.fields, "domains") == Some(JArray(seq(|ps[i].domains|, k requires 0 <= k < |ps[i].domains| => JString(ps[i].domains[k]))))
               && Get(t.fields, "actions").Some?
               && var a := Get(t.fields, "actions").value;
                  && a.JObject? && Get(a.fields, "reject") == Some(NumberOf(ps[i].policy.reject))
                  && Get(a.fields, "add_header") == Some(NumberOf(ps[i].policy.addHeader))
                  && Get(a.fields, "greylist") == Some(NumberOf(ps[i].policy.greylist))
  {
    var t := TenantDoc(ps[i]);
    assert "version"[0] == 'v' && "tenants"[0] == 't';
    GetAt(RenderDoc(ps).fields, 0); GetAt(RenderDoc(ps).fields, 1);
    assert |"slug"| == 4 && |"settings_id"| == 11 && |"domains"| == 7 && |"actions"| == 7;
    assert "domains"[0] == 'd' && "actions"[0] == 'a';
    GetAt(t.fields, 0); GetAt(t.fields, 1); GetAt(t.fields, 2); GetAt(t.fields, 3);
    ActionsHold(ps[i].policy);
    assert StringsOf(ps[i].domains) == seq(|ps[i].domains|, k requires 0 <= k < |ps[i].domains| => JString(ps[i].domains[k]));
  }

  lemma ActionsHold(p: T.Policy)
    ensures var a := ActionsDoc(p);
            && a.JObject? && Get(a.fields, "reject") == Some(NumberOf(p.reject))
            && Get(a.fields, "add_header") == Some(NumberOf(p.addHeader)) && Get(a.fields, "greylist") == Some(NumberOf(p.greylist))
  {
    assert |"reject"| == 6 && |"add_header"| == 10 && |"greylist"| == 8;
    var fields := ActionsDoc(p).fields;
    GetAt(fields, 0); GetAt(fields, 1); GetAt(fields, 2);
  }

  // ------------------------------------------------------------------------
  // When a document passes
  // ------------------------------------------------------------------------

  lemma GetAt(fields: seq<Field>, k: nat)
    requires k < |fields| <= 4
    requires forall i, j :: 0 <= i < j < |fields| ==> fields[i].name != fields[j].name
    ensures Get(fields, fields[k].name) == Some(fields[k].value)
  {
    if k > 0 {
      assert forall i :: 0 <= i < |fields| - 1 ==> fields[1..][i] == fields[i + 1];
      GetAt(fields[1..], k - 1);
    }
  }

  lemma ActionsPass(p: T.Policy)
    ensures Valid(ActionsSchema(), ActionsDoc(p)) <==> T.AllFinite(p)
  {
    var s, j := ActionsSchema(), ActionsDoc(p);
    assert |"reject"| == 6 && |"add_header"| == 10 && |"greylist"| == 8;
    GetAt(j.fields, 0); GetAt(j.fields, 1); GetAt(j.fields, 2);
    assert s.properties[0].schema == Simple(TNumber) && s.properties[1].schema == Simple(TNumber) && s.properties[2].schema == Simple(TNumber);
    assert forall f :: Valid(Simple(TNumber), NumberOf(f)) <==> f.Finite?;
    assert Valid(s, j) ==> Valid(s.properties[0].schema, NumberOf(p.reject)) && Valid(s.properties[1].schema, NumberOf(p.addHeader)) &&
                           Valid(s.properties[2].schema, NumberOf(p.greylist));
  }

  predicate NoneEmpty(ss: seq<string>) { forall i :: 0 <= i < |ss| ==> ss[i] != "" }

  lemma DomainsPass(ss: seq<string>)
    ensures Valid(TenantSchema().properties[2].schema, JArray(StringsOf(ss))) <==> ss != [] && NoneEmpty(ss)
  {
    var s, j := TenantSchema().properties[2].schema, JArray(StringsOf(ss));
    assert forall i :: 0 <= i < |ss| ==> (Valid(NonEmptyString(), j.elements[i]) <==> ss[i] != "");
  }

  /** What the schema asks of one tenant's policy. */
  ghost predicate Presentable(p: TenantPolicy) {
    && p.slug != ""
    && Matches(SettingsIdRe(), p.settingsId)
    && p.domains != [] && NoneEmpty(p.domains)
    && T.AllFinite(p.policy)
  }

  lemma TenantPasses(p: TenantPolicy)
    ensures Valid(TenantSchema(), TenantDoc(p)) <==> Presentable(p)
  {
    var s, j := TenantSchema(), TenantDoc(p);
    assert |"slug"| == 4 && |"settings_id"| == 11 && |"domains"| == 7 && |"actions"| == 7;
    assert "domains"[0] == 'd' && "actions"[0] == 'a';
    GetAt(j.fields, 0); GetAt(j.fields, 1); GetAt(j.fields, 2); GetAt(j.fields, 3);
    var v0, v1, v2, v3 := j.fields[0].value, j.fields[1].value, j.fields[2].value, j.fields[3].value;
    assert Valid(s.properties[0].schema, v0) <==> p.slug != "";
    assert Valid(s.properties[1].schema, v1) <==> Matches(SettingsIdRe(), p.settingsId);
    DomainsPass(p.domains);
    ActionsPass(p.policy);
    TenantPassesFields(s, j, v0, v1, v2, v3);
  }

  lemma TenantPassesFields(s: Schema, j: Json, v0: Json, v1: Json, v2: Json, v3: Json)
    requires s == TenantSchema() && j.JObject?
    requires Get(j.fields, "slug") == Some(v0) && Get(j.fields, "settings_id") == Some(v1)
    requires Get(j.fields, "domains") == Some(v2) && Get(j.fields, "actions") == Some(v3)
    ensures Valid(s, j) <==>
            Valid(s.properties[0].schema, v0) && Valid(s.properties[1].schema, v1) &&
            Valid(s.properties[2].schema, v2) && Valid(s.properties[3].schema, v3)
  {}

  /** The document passes the compiler's own schema exactly when every policy is presentable. */
  lemma DocumentPasses(ps: seq<TenantPolicy>)
    ensures Valid(SettingsSchema(), RenderDoc(ps)) <==> forall i :: 0 <= i < |ps| ==> Presentable(ps[i])
  {
    var s, j := SettingsSchema(), RenderDoc(ps);
    assert "version"[0] == 'v' && "tenants"[0] == 't';
    GetAt(j.fields, 0); GetAt(j.fields, 1);
    var list := JArray(TenantDocs(ps));
    assert Valid(s.properties[0].schema, JNumber(T.Whole(1))) by { assert T.Value(T.Whole(1)) == 1.0; }
    assert Valid(s.properties[1].schema, list) <==> forall i :: 0 <= i < |ps| ==> Presentable(ps[i]) by {
      forall i | 0 <= i < |ps| ensures Valid(TenantSchema(), list.elements[i]) <==> Presentable(ps[i]) { TenantPasses(ps[i]); }
      assert s.properties[1].schema.items == Some(TenantSchema());
    }
    DocumentPassesFields(s, j, JNumber(T.Whole(1)), list);
  }

  lemma DocumentPassesFields(s: Schema, j: Json, v0: Json, v1: Json)
    requires s == SettingsSchema() && j.JObject?
    requires Get(j.fields, "version") == Some(v0) && Get(j.fields, "tenants") == Some(v1)
    ensures Valid(s, j) <==> Valid(s.properties[0].schema, v0) && Valid(s.properties[1].schema, v1)
  {}

  lemma {:induction false} ReplacedAlphabet(slug: string)
    requires All(slug, IsNameChar)
    ensures All(Replace(slug, '-', "_"), IsIdChar) && |Replace(slug, '-', "_")| == |slug|
  {
    if slug != [] { ReplacedAlphabet(slug[1..]); }
  }

  /** The id of a valid slug has the shape the schema wants. */
  lemma SettingsIdFits(slug: string)
    requires All(slug, IsNameChar) && slug != ""
    ensures Matches(SettingsIdRe(), SettingsId(slug))
  {
    var tail := Replace(slug, '-', "_");
    ReplacedAlphabet(slug);
    RepClass(IsIdChar, 1, None, tail);
    LiteralMatches("tenant_", Rep(Cls(IsIdChar), 1, None), SettingsId(slug));
    assert SettingsId(slug)[7..] == tail;
  }
}
