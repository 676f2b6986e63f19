/** The option object `sm` after the hook factory has normalised it. Every
    component of the model reads its configuration from here. */
module Options {
  import opened Wrappers

  /** `fields` and `excludeFields` are `Some(list)` exactly when the option
      holds an array (`Array.isArray`); any other value, including an absent
      one, is `None`. `deep` and `fuzzyDiacritics` are the options' JavaScript
      truthiness. `fieldsNotEscaped` is always an array once normalised. */
  datatype Settings = Settings(
    escape: bool,
    fields: Option<seq<string>>,
    excludeFields: Option<seq<string>>,
    deep: bool,
    fuzzyDiacritics: bool,
    fieldsNotEscaped: seq<string>)
  {
    /** Both field lists are arrays, as the field-targeted rewriter needs:
        it reads `fields.length`, `fields.includes` and
        `excludeFields.includes` without a guard. */
    predicate HasFieldLists() {
      fields.Some? && excludeFields.Some?
    }
  }
}
