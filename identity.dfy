/** Entity identifiers (src/shared/domain/value-objects/uuid.vo.ts). */
module Identity {

  /**
   * A UUID value object. Its only attribute is the identifier text, so the
   * structural equality of `ValueObject.equals` is Dafny's `==` on this datatype.
   */
  datatype Uuid = Uuid(id: string) {
    /** `toString()` gives back the identifier text. */
    function ToString(): string {
      id
    }
  }

  /** Two identifiers are equal exactly when their texts are. */
  lemma UuidEqualityIsTextEquality(a: Uuid, b: Uuid)
    ensures a == b <==> a.ToString() == b.ToString()
  {
  }
}
