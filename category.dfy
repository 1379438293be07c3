/**
 * The Category entity (src/category/domain/category.entity.ts): a record of
 * five attributes updated in place, validated on creation and on the two
 * `change` methods.
 */
module CategoryDomain {
  import opened Wrappers
  import opened Identity
  import opened Errors

  /** The attributes of a category at one moment; this is what a repository stores. */
  datatype CategoryData = CategoryData(
    categoryId: Uuid,
    name: string,
    description: Option<string>,
    isActive: bool,
    createdAt: int)

  /** `CategoryConstructorProps`; `None` stands for an absent, `undefined` or `null` value. */
  datatype CategoryConstructorProps = CategoryConstructorProps(
    categoryId: Option<Uuid>,
    name: string,
    description: Option<string>,
    isActive: Option<bool>,
    createdAt: Option<int>)

  /** `CategoryCreateCommand`: the id and the creation time are always generated. */
  datatype CategoryCreateCommand = CategoryCreateCommand(
    name: string,
    description: Option<string>,
    isActive: Option<bool>)

  const MaxNameLength: nat := 255
  const NameEmptyMessage := "name should not be empty"
  const NameTooLongMessage := "name must be shorter than or equal to 255 characters"

  /**
   * The attributes the constructor sets: absent values take their defaults,
   * `freshId` and `now` stand for `new Uuid()` and `new Date()`.
   */
  function WithDefaults(props: CategoryConstructorProps, freshId: Uuid, now: int): CategoryData {
    CategoryData(
      props.categoryId.GetOr(freshId),
      props.name,
      props.description,
      props.isActive.GetOr(true),
      props.createdAt.GetOr(now))
  }

  /** The messages the category validator gives for a name. */
  function NameMessages(name: string): seq<string> {
    (if name == "" then [NameEmptyMessage] else [])
    + (if |name| > MaxNameLength then [NameTooLongMessage] else [])
  }

  /**
   * The validator's errors, field by field. With the attribute types fixed,
   * only the name rules can fail: not empty and at most 255 characters.
   */
  function ValidationErrors(c: CategoryData): (errors: map<string, seq<string>>)
    ensures errors.Keys <= {"name"}
    ensures errors == map[] <==> 0 < |c.name| <= MaxNameLength
    ensures "name" in errors ==> (NameEmptyMessage in errors["name"] <==> c.name == "")
    ensures "name" in errors ==> (NameTooLongMessage in errors["name"] <==> |c.name| > MaxNameLength)
  {
    var messages := NameMessages(c.name);
    if messages == [] then map[]
    else
      var errors := map["name" := messages];
      assert "name" in errors;
      errors
  }

  /** The validator accepts the category. */
  predicate IsValid(c: CategoryData) {
    ValidationErrors(c) == map[]
  }

  /**
   * The error an invalid category raises holds the name's messages and
   * nothing else: it counts exactly one field.
   */
  lemma InvalidCategoryErrorCountsName(c: CategoryData)
    requires !IsValid(c)
    ensures var e := NewEntityValidatorError(ValidationErrors(c));
            && e.errors.Keys == {"name"} && e.errors["name"] == NameMessages(c.name)
            && e.Count() == 1 && e.message == "Validation Error"
  {
    assert ValidationErrors(c) == map["name" := NameMessages(c.name)];
  }

  /** The validation outcomes the entity's tests pin down. */
  lemma TestedValidationMessages(c: CategoryData)
    ensures c.name == "" ==> ValidationErrors(c) == map["name" := [NameEmptyMessage]]
    ensures |c.name| == 256 ==> ValidationErrors(c) == map["name" := [NameTooLongMessage]]
    ensures c.name == "Drama" ==> IsValid(c)
  {
    if c.name == "" {
      assert NameMessages(c.name) == [NameEmptyMessage];
    }
    if |c.name| == 256 {
      assert NameMessages(c.name) == [NameTooLongMessage];
    }
  }

  /** Validity depends on the name alone: a new description never changes it. */
  lemma ValidityIgnoresDescription(c: CategoryData, description: Option<string>)
    ensures IsValid(c.(description := description)) <==> IsValid(c)
    ensures IsValid(c.(isActive := !c.isActive)) <==> IsValid(c)
  {
  }

  class Category {
    var categoryId: Uuid
    var name: string
    var description: Option<string>
    var isActive: bool
    var createdAt: int
    /** How many times the validator has run on this category. */
    ghost var validations: nat

    /** `new Category(props)`: fills in the defaults; does not validate. */
    constructor (props: CategoryConstructorProps, freshId: Uuid, now: int)
      ensures props.categoryId.Some? ==> categoryId == props.categoryId.value
      ensures props.categoryId.None? ==> categoryId == freshId
      ensures name == props.name && description == props.description
      ensures isActive <==> props.isActive != Some(false)
      ensures props.createdAt.Some? ==> createdAt == props.createdAt.value
      ensures props.createdAt.None? ==> createdAt == now
      ensures Data() == WithDefaults(props, freshId, now)
      ensures validations == 0
    {
      categoryId := props.categoryId.GetOr(freshId);
      name := props.name;
      description := props.description;
      isActive := props.isActive.GetOr(true);
      createdAt := props.createdAt.GetOr(now);
      validations := 0;
    }

    /** The attribute values. */
    function Data(): CategoryData
      reads this
    {
      CategoryData(categoryId, name, description, isActive, createdAt)
    }

    /** `entity_id`: the identity the repositories match on. */
    function EntityId(): (id: Uuid)
      reads this
      ensures id == Data().categoryId
    {
      categoryId
    }

    /** `Category.validate`: runs the validator once and fails with its errors. */
    static method Validate(entity: Category) returns (o: Outcome<EntityValidatorError>)
      modifies entity`validations
      ensures entity.validations == old(entity.validations) + 1
      ensures o.Pass? <==> IsValid(entity.Data())
      ensures o.Fail? ==> o.error == NewEntityValidatorError(ValidationErrors(entity.Data()))
    {
      entity.validations := entity.validations + 1;
      var errors := ValidationErrors(entity.Data());
      if errors == map[] {
        o := Pass;
      } else {
        o := Fail(NewEntityValidatorError(errors));
      }
    }

    /**
     * `Category.create`: constructs with a fresh id and the current time,
     * validates exactly once, and returns the category only if it is valid.
     */
    static method Create(command: CategoryCreateCommand, freshId: Uuid, now: int)
      returns (r: Result<Category, EntityValidatorError>)
      ensures var data := CategoryData(freshId, command.name, command.description, command.isActive.GetOr(true), now);
              && (r.Success? <==> IsValid(data))
              && (r.Success? ==> fresh(r.value) && r.value.Data() == data && r.value.validations == 1)
              && (r.Failure? ==> r.error == NewEntityValidatorError(ValidationErrors(data)))
    {
      var props := CategoryConstructorProps(None, command.name, command.description, command.isActive, None);
      var category := new Category(props, freshId, now);
      var outcome := Validate(category);
      match outcome
      case Pass =>
        r := Success(category);
      case Fail(e) =>
        r := Failure(e);
    }

    /**
     * `changeNames`: sets the name, then validates; on failure the new name
     * has already been stored.
     */
    method ChangeNames(newName: string) returns (o: Outcome<EntityValidatorError>)
      modifies this`name, this`validations
      ensures Data() == old(Data()).(name := newName)
      ensures validations == old(validations) + 1
      ensures o.Pass? <==> 0 < |newName| <= MaxNameLength
      ensures o.Fail? ==> o.error == NewEntityValidatorError(ValidationErrors(Data()))
    {
      name := newName;
      o := Validate(this);
    }

    /** `changeDescription`: sets the description, then validates the whole category. */
    method ChangeDescription(newDescription: string) returns (o: Outcome<EntityValidatorError>)
      modifies this`description, this`validations
      ensures Data() == old(Data()).(description := Some(newDescription))
      ensures validations == old(validations) + 1
      ensures o.Pass? <==> IsValid(old(Data()))
      ensures o.Fail? ==> o.error == NewEntityValidatorError(ValidationErrors(Data()))
    {
      description := Some(newDescription);
      o := Validate(this);
    }

    /** `activate`: sets `is_active`; no validation runs. */
    method Activate()
      modifies this`isActive
      ensures Data() == old(Data()).(isActive := true)
    {
      isActive := true;
    }

    /** `deactivate`: clears `is_active`; no validation runs. */
    method Deactivate()
      modifies this`isActive
      ensures Data() == old(Data()).(isActive := false)
    {
      isActive := false;
    }
  }
}
