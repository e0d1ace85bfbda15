/** `greet` and `createUserProfile` in their two copies:
    packages/knowledge/src/index.ts, built on the TypeScript helpers, and
    packages/core/src/index.js, built on the older JavaScript helpers. */
module Profile {
  import opened Wrappers
  import opened Text
  import opened JsValue
  import opened Format

  const GreetTemplate: string := "Hello, {0}!"

  /** packages/knowledge/src/index.ts `greet` */
  function KnowledgeGreet(name: string): string {
    TsFormatString(GreetTemplate, [Some(name)])
  }

  /** packages/core/src/index.js `greet`, whose argument may be missing */
  function CoreGreet(name: Option<string>): string {
    JsFormatString(GreetTemplate, [name])
  }

  /** A template made of brace-free text, one placeholder and brace-free
      text formats to the texts around the placeholder's replacement */
  lemma OnePlaceholder(template: string, pre: string, ds: string, post: string, lookup: string -> Option<string>)
    requires NoBrace(pre) && NoBrace(post) && |ds| >= 1 && AllDigits(ds)
    requires template == pre + "{" + ds + "}" + post
    ensures Substitute(Scan(template), lookup)
            == pre + (match lookup(ds) case Some(v) => v case None => "{" + ds + "}") + post
  {
    FormatAroundPlaceholder(pre, ds, post, lookup);
    assert post + [] == post;
    ScanLiteralPrefix(post, []);
    SubstituteLits(post, lookup);
    assert Lits(post) + Scan([]) == Lits(post);
  }

  lemma GreetTemplateShape()
    ensures GreetTemplate == "Hello, " + "{" + "0" + "}" + "!"
    ensures "{" + "0" + "}" == "{0}"
    ensures NoBrace("Hello, ") && NoBrace("!") && AllDigits("0")
  {
  }

  /** Whatever the replacer, the template's one placeholder is `{0}` */
  lemma GreetWith(lookup: string -> Option<string>)
    ensures Substitute(Scan(GreetTemplate), lookup)
            == "Hello, " + (match lookup("0") case Some(v) => v case None => "{0}") + "!"
  {
    GreetTemplateShape();
    OnePlaceholder(GreetTemplate, "Hello, ", "0", "!", lookup);
  }

  lemma ZeroAddressesFirst(args: seq<Option<string>>)
    requires |args| > 0
    ensures TsResolver(args)("0") == args[0] && JsResolver(args)("0") == args[0]
  {
    assert DigitsValue("0") == 0;
    assert IsCanonicalDecimal("0");
  }

  /** The greeting is the name between "Hello, " and "!", for every name,
      including one that itself contains a placeholder such as `{0}` */
  lemma KnowledgeGreetSpec(name: string)
    ensures KnowledgeGreet(name) == "Hello, " + name + "!"
  {
    GreetWith(TsResolver([Some(name)]));
    ZeroAddressesFirst([Some(name)]);
  }

  /** The same for the JavaScript copy; with no name the placeholder stays */
  lemma CoreGreetSpec(name: Option<string>)
    ensures name.Some? ==> CoreGreet(name) == "Hello, " + name.value + "!"
    ensures name.None? ==> CoreGreet(name) == "Hello, {0}!"
  {
    GreetWith(JsResolver([name]));
    ZeroAddressesFirst([name]);
    UnreplacedGreeting();
  }

  lemma UnreplacedGreeting()
    ensures "Hello, " + "{0}" + "!" == "Hello, {0}!"
  {
  }

  /** The `defaults` object of both `createUserProfile` copies */
  const DefaultPreferences: Value := Obj(map["theme" := Prim(Text("light")), "notifications" := Prim(Boolean(true))])

  const ProfileDefaults: map<string, Value> :=
    map["id" := Null, "name" := Prim(Text("")), "email" := Prim(Text("")), "preferences" := DefaultPreferences]

  /** The properties an object spread `{...v}` copies from `v`: the own
      enumerable properties of an object; nothing from null, undefined, a
      boolean, a number or a Date; arrays and strings are not expected here
      and contribute nothing in this model */
  function Spread(v: Value): map<string, Value> {
    match v
    case Obj(fields) => fields
    case NullProtoObj(fields) => fields
    case _ => map[]
  }

  /** `{ ...defaults, ...userData }` */
  function Merged(userData: Value): map<string, Value> {
    ProfileDefaults + Spread(userData)
  }

  /** packages/knowledge/src/index.ts `createUserProfile` */
  function KnowledgeCreateUserProfile(userData: Value): Value {
    DeepClone(Obj(Merged(userData)))
  }

  /** packages/core/src/index.js `createUserProfile`, `None` when it throws */
  function CoreCreateUserProfile(userData: Value): Option<Value> {
    JsDeepClone(Obj(Merged(userData)))
  }

  /** Some object the older clone walks into under the user data has an own
      `hasOwnProperty` property */
  predicate ShadowsHasOwn(userData: Value) {
    || HasOwnKey in Spread(userData)
    || exists k :: k in Spread(userData) && !NoOwnKey(Spread(userData)[k], HasOwnKey)
  }

  /** The TypeScript profile: a plain object with the default keys and the
      caller's keys except an own `__proto__`; a caller's key holds the clone
      of the caller's value, and every other key the default, so preferences
      are replaced wholesale, never merged */
  lemma KnowledgeProfileSpec(userData: Value)
    ensures var p := KnowledgeCreateUserProfile(userData);
            && p.Obj?
            && p.fields.Keys == (ProfileDefaults.Keys + Spread(userData).Keys) - {ProtoKey}
            && (forall k :: k in Spread(userData) && k != ProtoKey ==>
                  k in p.fields && p.fields[k] == DeepClone(Spread(userData)[k]))
            && (forall k :: k in ProfileDefaults && k !in Spread(userData) ==>
                  k in p.fields && p.fields[k] == ProfileDefaults[k])
  {
    var m := Merged(userData);
    forall k | k in ProfileDefaults && k !in Spread(userData)
      ensures DeepClone(m[k]) == ProfileDefaults[k]
    {
      DefaultsAreClean(k);
      DeepCloneExact(m[k]);
    }
  }

  /** The JavaScript profile throws exactly when the user data shadows
      `hasOwnProperty`; otherwise it has the same keys as the TypeScript one,
      with the caller's values cloned by the older `deepClone` */
  lemma CoreProfileSpec(userData: Value)
    ensures var p := CoreCreateUserProfile(userData);
            && (p.None? <==> ShadowsHasOwn(userData))
            && (p.Some? ==>
                  && p.value.Obj?
                  && p.value.fields.Keys == (ProfileDefaults.Keys + Spread(userData).Keys) - {ProtoKey}
                  && (forall k :: k in Spread(userData) && k != ProtoKey ==>
                        k in p.value.fields && Some(p.value.fields[k]) == JsDeepClone(Spread(userData)[k]))
                  && (forall k :: k in ProfileDefaults && k !in Spread(userData) ==>
                        k in p.value.fields && p.value.fields[k] == ProfileDefaults[k]))
  {
    JsDeepCloneThrows(Obj(Merged(userData)));
    MergedShadowsHasOwn(userData);
    if !ShadowsHasOwn(userData) {
      CoreProfileFields(userData);
    }
  }

  lemma CoreProfileFields(userData: Value)
    requires JsDeepClone(Obj(Merged(userData))).Some?
    ensures var p := JsDeepClone(Obj(Merged(userData))).value;
            && p.Obj?
            && p.fields.Keys == (ProfileDefaults.Keys + Spread(userData).Keys) - {ProtoKey}
            && (forall k :: k in Spread(userData) && k != ProtoKey ==>
                  k in p.fields && Some(p.fields[k]) == JsDeepClone(Spread(userData)[k]))
            && (forall k :: k in ProfileDefaults && k !in Spread(userData) ==>
                  k in p.fields && p.fields[k] == ProfileDefaults[k])
  {
    var m := Merged(userData);
    forall k | k in ProfileDefaults && k !in Spread(userData)
      ensures JsDeepClone(m[k]) == Some(ProfileDefaults[k])
    {
      DefaultsAreClean(k);
      JsDeepCloneExact(m[k]);
    }
  }

  /** The defaults hold no null-prototype object and neither key the clones
      treat specially */
  lemma DefaultsAreClean(k: string)
    requires k in ProfileDefaults
    ensures var v := ProfileDefaults[k];
            NullProtoFree(v) && NoOwnKey(v, ProtoKey) && NoOwnKey(v, HasOwnKey)
  {
    if k == "preferences" {
      assert NoOwnKey(DefaultPreferences.fields["theme"], ProtoKey);
      assert NoOwnKey(DefaultPreferences.fields["notifications"], ProtoKey);
      assert NoOwnKey(DefaultPreferences.fields["theme"], HasOwnKey);
      assert NoOwnKey(DefaultPreferences.fields["notifications"], HasOwnKey);
    }
  }

  /** The merged object shadows `hasOwnProperty` exactly when the user data
      does: the defaults never do */
  lemma MergedShadowsHasOwn(userData: Value)
    ensures !NoOwnKey(Obj(Merged(userData)), HasOwnKey) <==> ShadowsHasOwn(userData)
  {
    var m := Merged(userData);
    forall k | k in ProfileDefaults
      ensures NoOwnKey(ProfileDefaults[k], HasOwnKey)
    {
      DefaultsAreClean(k);
    }
    if ShadowsHasOwn(userData) && HasOwnKey !in Spread(userData) {
      var k :| k in Spread(userData) && !NoOwnKey(Spread(userData)[k], HasOwnKey);
      assert m[k] == Spread(userData)[k];
    }
  }

  /** With no user data at all, the profile is the defaults */
  lemma EmptyUserDataGivesDefaults()
    ensures KnowledgeCreateUserProfile(Obj(map[])) == Obj(ProfileDefaults)
    ensures CoreCreateUserProfile(Prim(Undefined)) == Some(Obj(ProfileDefaults))
  {
    NoUserDataMergesToDefaults();
    DefaultsObjectIsClean();
    DeepCloneExact(Obj(ProfileDefaults));
    JsDeepCloneExact(Obj(ProfileDefaults));
  }

  lemma NoUserDataMergesToDefaults()
    ensures Merged(Obj(map[])) == ProfileDefaults && Merged(Prim(Undefined)) == ProfileDefaults
  {
    assert ProfileDefaults + map[] == ProfileDefaults;
  }

  lemma DefaultsObjectIsClean()
    ensures var d := Obj(ProfileDefaults);
            NullProtoFree(d) && NoOwnKey(d, ProtoKey) && NoOwnKey(d, HasOwnKey)
  {
    forall k | k in ProfileDefaults
      ensures NullProtoFree(ProfileDefaults[k]) && NoOwnKey(ProfileDefaults[k], ProtoKey)
              && NoOwnKey(ProfileDefaults[k], HasOwnKey)
    {
      DefaultsAreClean(k);
    }
  }

  /** `{ preferences: { theme: "dark" } }` yields preferences without the
      default `notifications` key: the nested object is not merged */
  lemma PreferencesReplacedWholesale()
    ensures var prefs := Obj(map["theme" := Prim(Text("dark"))]);
            var p := KnowledgeCreateUserProfile(Obj(map["preferences" := prefs]));
            && p.fields["preferences"] == prefs
            && "notifications" !in p.fields["preferences"].fields
  {
    var prefs := Obj(map["theme" := Prim(Text("dark"))]);
    var u := Obj(map["preferences" := prefs]);
    assert "preferences" in Spread(u) && Spread(u)["preferences"] == prefs;
    KnowledgeProfileSpec(u);
    assert NoOwnKey(prefs, ProtoKey);
    DeepCloneExact(prefs);
  }

  /** The copies give the same profile exactly when the JavaScript one does
      not throw and no kept part of a user value is a null-prototype object,
      which the JavaScript copy turns into undefined */
  lemma ProfilesAgree(userData: Value)
    ensures CoreCreateUserProfile(userData) == Some(KnowledgeCreateUserProfile(userData))
            <==> && !ShadowsHasOwn(userData)
                 && forall k :: k in Spread(userData) && k != ProtoKey ==> NullProtoFree(Spread(userData)[k])
  {
    ClonesAgree(Obj(Merged(userData)));
    MergedShadowsHasOwn(userData);
    MergedNullProtoFree(userData);
  }

  /** The merged object keeps a null-prototype object exactly when a kept
      user value does: the defaults never do */
  lemma MergedNullProtoFree(userData: Value)
    ensures NullProtoFree(Obj(Merged(userData)))
            <==> forall k :: k in Spread(userData) && k != ProtoKey ==> NullProtoFree(Spread(userData)[k])
  {
    var m := Merged(userData);
    forall k | k in ProfileDefaults
      ensures NullProtoFree(ProfileDefaults[k])
    {
      DefaultsAreClean(k);
    }
    if !forall k :: k in Spread(userData) && k != ProtoKey ==> NullProtoFree(Spread(userData)[k]) {
      var k :| k in Spread(userData) && k != ProtoKey && !NullProtoFree(Spread(userData)[k]);
      assert m[k] == Spread(userData)[k];
    }
  }
}
