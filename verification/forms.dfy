/** The engine objects the configuration talks about, and the engine lookups the loader calls. */
module Forms {
  import opened Text

  datatype Option<T> = None | Some(value: T)

  /** An engine form (a TESForm*), known only by its identity. */
  type Form = nat

  /** An engine form list (a BGSListForm*); Distribute appends to its arrayOfForms in place. */
  class FormList {
    var arrayOfForms: seq<Form>
  }

  /**
   * The host engine as the loader sees it:
   * lookup(plugin, formId) is Utils::GetFormFromIdentifier, None standing for a null form;
   * asList(form) is RE::fallout_cast<RE::BGSListForm*>, None when the form is not a form list.
   */
  datatype Engine = Engine(
    lookup: (seq<byte>, seq<byte>) -> Option<Form>,
    asList: Form -> Option<FormList>)

  /** Every form list the engine can hand out lies in lists. */
  ghost predicate ListsWithin(e: Engine, lists: set<FormList>) {
    forall f :: e.asList(f).Some? ==> e.asList(f).value in lists
  }
}
