/** UpdateItemRequest: a partial item update. A field is present only when
    it carries a usable value. */
module ItemUpdate {
  import opened Common
  import opened Text

  /** None stands for a null field. */
  datatype UpdateItemRequest = UpdateItemRequest(
    name: Option<string>,
    description: Option<string>,
    available: Option<bool>)
  {
    /** Present: not null and not blank. */
    predicate HasName() {
      name.Some? && !IsBlank(name.value)
    }

    predicate HasDescription() {
      description.Some? && !IsBlank(description.value)
    }

    /** Present: not null, so an explicit `false` counts. */
    predicate HasAvailable() {
      available.Some?
    }
  }

  /** A present text field holds at least one character that is not white
      space, so in particular it is not empty. */
  lemma PresentTextIsVisible(u: UpdateItemRequest)
    ensures u.HasName() <==> u.name.Some? && exists i :: 0 <= i < |u.name.value| && !IsWhitespace(u.name.value[i])
    ensures u.HasDescription() <==>
              u.description.Some? && exists i :: 0 <= i < |u.description.value| && !IsWhitespace(u.description.value[i])
    ensures u.HasName() ==> |u.name.value| > 0
    ensures u.HasDescription() ==> |u.description.value| > 0
  {
  }

  /** An explicit `false` is a present availability. */
  lemma FalseIsPresent(u: UpdateItemRequest)
    requires u.available == Some(false)
    ensures u.HasAvailable()
  {
  }
}
