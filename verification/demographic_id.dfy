/**
 `DemographicId`: the composite key (userId, category) of a demographic
 answer.

 An enum's `hashCode` is its identity hash, which varies from run to run, so
 the category hashes are a parameter.
 */
module DemographicIds {
  import opened Common
  import opened JavaHash
  import opened DemographicValidation

  datatype DemographicId = DemographicId(userId: Option<string>, category: Option<Category>)

  /** The argument of `equals`: null, another id, or an object of another class. */
  datatype Obj = Null | Id(id: DemographicId) | OtherClass

  /** `equals`: both components equal, `Objects.equals` treating two nulls as equal. */
  function Equals(self: DemographicId, obj: Obj): (r: bool)
    ensures obj.Null? || obj.OtherClass? ==> !r
    ensures obj.Id? ==> (r <==> self.userId == obj.id.userId && self.category == obj.id.category)
  {
    match obj
    case Id(that) => self.userId == that.userId && self.category == that.category
    case _ => false
  }

  /** `hashCode`: `Objects.hash(userId, category)`. */
  function HashCode(self: DemographicId, categoryHash: Category -> Int32): (h: Int32)
    ensures h == Wrap(31 * (31 + NullableHash(self.userId, StringHash)) + NullableHash(self.category, categoryHash))
  {
    ObjectsHashPair(NullableHash(self.userId, StringHash), NullableHash(self.category, categoryHash));
    ObjectsHash([NullableHash(self.userId, StringHash), NullableHash(self.category, categoryHash)])
  }

  /** `equals` coincides with equality of the key. */
  lemma EqualsIsKeyEquality(a: DemographicId, b: DemographicId)
    ensures Equals(a, Id(b)) <==> a == b
  {
  }

  /** `equals` is reflexive, symmetric and transitive. */
  lemma EqualsIsEquivalence(a: DemographicId, b: DemographicId, c: DemographicId)
    ensures Equals(a, Id(a))
    ensures Equals(a, Id(b)) <==> Equals(b, Id(a))
    ensures Equals(a, Id(b)) && Equals(b, Id(c)) ==> Equals(a, Id(c))
  {
  }

  /** Equal ids have equal hash codes, whatever the enum hashes are. */
  lemma EqualsConsistentWithHashCode(a: DemographicId, b: DemographicId, categoryHash: Category -> Int32)
    requires Equals(a, Id(b))
    ensures HashCode(a, categoryHash) == HashCode(b, categoryHash)
  {
  }
}
