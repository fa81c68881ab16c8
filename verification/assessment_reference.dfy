/**
 `AssessmentReference`: a pointer from a schedule to an assessment, equal to
 another exactly when the guids agree, and resolving to the assessment's
 config endpoint in the shared or the app's own library.

 `ConfigResolver` and `BridgeConstants.SHARED_APP_ID` are parameters.
 */
module AssessmentReferences {
  import opened Common
  import opened JavaHash

  /** `ConfigResolver.url(service, path)`. */
  datatype Resolver = Resolver(url: (string, string) -> string)

  datatype AssessmentReference = AssessmentReference(
    resolver: Resolver,
    appId: Option<string>,
    guid: Option<string>,
    id: Option<string>,
    originSharedId: Option<string>)

  /** The `@JsonCreator` constructor: the default resolver, no id and no
      origin shared id. */
  function FromJson(instance: Resolver, appId: Option<string>, guid: Option<string>): (r: AssessmentReference)
    ensures r.appId == appId && r.guid == guid
    ensures r.id.None? && r.originSharedId.None?
  {
    AssessmentReference(instance, appId, guid, None, None)
  }

  const SHARED_PATH := "/v1/sharedassessments/"
  const LOCAL_PATH := "/v1/assessments/"

  /** The path of an assessment's config in the shared or the app's library. */
  function ConfigPath(shared: bool, guid: string): string {
    (if shared then SHARED_PATH else LOCAL_PATH) + guid + "/config"
  }

  /** Different libraries or different guids never share a config path. */
  lemma ConfigPathInjective(s1: bool, g1: string, s2: bool, g2: string)
    ensures ConfigPath(s1, g1) == ConfigPath(s2, g2) <==> s1 == s2 && g1 == g2
  {
    var p1 := ConfigPath(s1, g1);
    var p2 := ConfigPath(s2, g2);
    if p1 == p2 {
      // the libraries differ at "/v1/s..." against "/v1/a..."
      assert p1[4] == (if s1 then 's' else 'a');
      assert p2[4] == (if s2 then 's' else 'a');
      var n := |if s1 then SHARED_PATH else LOCAL_PATH|;
      assert g1 == p1[n..|p1| - 7];
      assert g2 == p2[n..|p2| - 7];
    }
  }

  /** `getConfigHref`: null without a guid; otherwise the resolved URL of
      the config path, in the shared library iff the app is the shared app. */
  function ConfigHref(ref: AssessmentReference, sharedAppId: string): (r: Option<string>)
    ensures r.None? <==> ref.guid.None?
    ensures ref.guid.Some? && ref.appId == Some(sharedAppId) ==>
      r == Some(ref.resolver.url("ws", SHARED_PATH + ref.guid.value + "/config"))
    ensures ref.guid.Some? && ref.appId != Some(sharedAppId) ==>
      r == Some(ref.resolver.url("ws", LOCAL_PATH + ref.guid.value + "/config"))
  {
    if ref.guid.None? then None
    else
      var shared := ref.appId.Some? && ref.appId.value == sharedAppId;
      Some(ref.resolver.url("ws", ConfigPath(shared, ref.guid.value)))
  }

  /** The href depends on the resolver, on whether the app is the shared app,
      and on the guid only. */
  lemma ConfigHrefDependsOnGuidAndLibrary(a: AssessmentReference, b: AssessmentReference, sharedAppId: string)
    requires a.resolver == b.resolver && a.guid == b.guid
    requires (a.appId == Some(sharedAppId)) == (b.appId == Some(sharedAppId))
    ensures ConfigHref(a, sharedAppId) == ConfigHref(b, sharedAppId)
  {
  }

  /** With a resolver that keeps the path, different guids or libraries give
      different hrefs. */
  lemma ConfigHrefDistinguishes(a: AssessmentReference, b: AssessmentReference, sharedAppId: string)
    requires forall service, path :: a.resolver.url(service, path) == path
    requires a.resolver == b.resolver
    requires a.guid.Some? && b.guid.Some?
    ensures ConfigHref(a, sharedAppId) == ConfigHref(b, sharedAppId) <==>
              a.guid == b.guid && ((a.appId == Some(sharedAppId)) == (b.appId == Some(sharedAppId)))
  {
    ConfigPathInjective(a.appId == Some(sharedAppId), a.guid.value, b.appId == Some(sharedAppId), b.guid.value);
  }

  /** The argument of `equals`: null, another reference, or an object of
      another class. */
  datatype Obj = Null | Reference(ref: AssessmentReference) | OtherClass

  /** `equals`. The identity shortcut is subsumed: an object has its own guid. */
  function Equals(self: AssessmentReference, obj: Obj): (r: bool)
    ensures obj.Null? || obj.OtherClass? ==> !r
    ensures obj.Reference? ==> (r <==> self.guid == obj.ref.guid)
  {
    match obj
    case Reference(other) => self.guid == other.guid
    case _ => false
  }

  /** `hashCode`: `Objects.hash(guid)`. */
  function HashCode(self: AssessmentReference): (h: Int32)
    ensures h == Wrap(31 + NullableHash(self.guid, StringHash))
    ensures self.guid.None? ==> h == 31
  {
    ObjectsHashSingle(NullableHash(self.guid, StringHash));
    ObjectsHash([NullableHash(self.guid, StringHash)])
  }

  lemma ObjectsHashSingle(a: Int32)
    ensures ObjectsHash([a]) == Wrap(31 + a)
  {
    assert [a][..0] == [];
  }

  /** `equals` is an equivalence on references. */
  lemma EqualsIsEquivalence(a: AssessmentReference, b: AssessmentReference, c: AssessmentReference)
    ensures Equals(a, Reference(a))
    ensures Equals(a, Reference(b)) <==> Equals(b, Reference(a))
    ensures Equals(a, Reference(b)) && Equals(b, Reference(c)) ==> Equals(a, Reference(c))
  {
  }

  /** Equal references have equal hash codes. */
  lemma EqualsConsistentWithHashCode(a: AssessmentReference, b: AssessmentReference)
    requires Equals(a, Reference(b))
    ensures HashCode(a) == HashCode(b)
  {
  }

  /** Everything but the guid is ignored by `equals`. */
  lemma EqualsIgnoresAllButGuid(a: AssessmentReference, resolver: Resolver, appId: Option<string>,
                                id: Option<string>, originSharedId: Option<string>)
    ensures Equals(a, Reference(AssessmentReference(resolver, appId, a.guid, id, originSharedId)))
    ensures HashCode(AssessmentReference(resolver, appId, a.guid, id, originSharedId)) == HashCode(a)
  {
  }
}
