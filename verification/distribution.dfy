/** Distribute: adding the configured forms to each form list, skipping forms already present. */
module Distribution {
  import opened Text
  import opened Forms
  import opened ConfigMap

  /** No form occurs twice in s. */
  predicate NoDuplicates(s: seq<Form>) {
    forall i, j :: 0 <= i < j < |s| ==> s[i] != s[j]
  }

  /** arr after each form of forms, in order, has been appended unless already present. */
  function AppendAbsent(arr: seq<Form>, forms: seq<Form>): seq<Form>
    decreases |forms|
  {
    if forms == [] then arr
    else
      var r := AppendAbsent(arr, forms[..|forms| - 1]);
      var f := forms[|forms| - 1];
      if f in r then r else r + [f]
  }

  /**
   * The inner loop of Distribute for one list: std::find over arrayOfForms, then push_back when
   * the form was not found.
   */
  method AddForms(list: FormList, forms: seq<Form>)
    modifies list
    ensures list.arrayOfForms == AppendAbsent(old(list.arrayOfForms), forms)
  {
    for i := 0 to |forms|
      invariant list.arrayOfForms == AppendAbsent(old(list.arrayOfForms), forms[..i])
    {
      assert forms[..i + 1][..i] == forms[..i];
      var form := forms[i];
      if form !in list.arrayOfForms {
        list.arrayOfForms := list.arrayOfForms + [form];
      }
    }
    assert forms[..|forms|] == forms;
  }

  /**
   * Distribute: load every configuration file, then visit the loaded lists in an unspecified
   * order and add each one's configured forms. lists bounds every form list the engine can
   * return; only the arrays of those lists change.
   */
  method Distribute(e: Engine, trim: seq<byte> -> seq<byte>, files: seq<seq<seq<byte>>>, ghost lists: set<FormList>)
    requires ListsWithin(e, lists)
    modifies lists
    ensures forall l :: l in lists ==>
              l.arrayOfForms == AppendAbsent(old(l.arrayOfForms), TargetsFor(Outcomes(e, trim, Concat(files)), l))
  {
    var configs := LoadConfigs(e, trim, files);
    OutcomesWithin(e, trim, Concat(files), lists);
    GroupedKeysWithin(map[], Outcomes(e, trim, Concat(files)), lists);
    var pending := configs.Keys;
    while pending != {}
      invariant pending <= configs.Keys
      invariant forall l :: l in lists ==>
                  l.arrayOfForms == if l in configs && l !in pending then AppendAbsent(old(l.arrayOfForms), configs[l])
                                    else old(l.arrayOfForms)
      decreases pending
    {
      var list :| list in pending;
      AddForms(list, configs[list]);
      pending := pending - {list};
    }
  }

  /**
   * The old array is a prefix of the new one, and the new one holds exactly the forms of the
   * old array and of the configured forms.
   */
  lemma {:induction false} AppendAbsentExtends(arr: seq<Form>, forms: seq<Form>)
    ensures arr <= AppendAbsent(arr, forms)
    ensures forall x :: x in AppendAbsent(arr, forms) <==> x in arr || x in forms
    decreases |forms|
  {
    if forms != [] {
      var init := forms[..|forms| - 1];
      AppendAbsentExtends(arr, init);
      assert forms == init + [forms[|forms| - 1]];
    }
  }

  /** Every form appended was absent from everything before it, the old array included. */
  lemma {:induction false} AppendAbsentAddsNew(arr: seq<Form>, forms: seq<Form>)
    ensures var r := AppendAbsent(arr, forms);
      |arr| <= |r| && forall j :: |arr| <= j < |r| ==> r[j] !in r[..j]
    decreases |forms|
  {
    if forms != [] {
      AppendAbsentAddsNew(arr, forms[..|forms| - 1]);
      var r := AppendAbsent(arr, forms[..|forms| - 1]);
      assert (r + [forms[|forms| - 1]])[..|r|] == r;
      forall j | |arr| <= j < |r|
        ensures (r + [forms[|forms| - 1]])[..j] == r[..j]
      {
      }
    }
  }

  /** A list without duplicates stays without duplicates. */
  lemma {:induction false} AppendAbsentKeepsNoDuplicates(arr: seq<Form>, forms: seq<Form>)
    requires NoDuplicates(arr)
    ensures NoDuplicates(AppendAbsent(arr, forms))
  {
    var r := AppendAbsent(arr, forms);
    AppendAbsentAddsNew(arr, forms);
    AppendAbsentExtends(arr, forms);
    forall i, j | 0 <= i < j < |r|
      ensures r[i] != r[j]
    {
      if j < |arr| {
        assert r[i] == arr[i] && r[j] == arr[j];
      } else {
        assert r[i] in r[..j];
      }
    }
  }

  /** Forms that are all present already change nothing. */
  lemma {:induction false} AppendAbsentPresent(arr: seq<Form>, forms: seq<Form>)
    requires forall x :: x in forms ==> x in arr
    ensures AppendAbsent(arr, forms) == arr
    decreases |forms|
  {
    if forms != [] {
      assert forall x :: x in forms[..|forms| - 1] ==> x in forms;
      AppendAbsentPresent(arr, forms[..|forms| - 1]);
      assert forms[|forms| - 1] in forms;
    }
  }

  /** Distributing the same forms a second time adds nothing. */
  lemma {:induction false} AppendAbsentIdempotent(arr: seq<Form>, forms: seq<Form>)
    ensures AppendAbsent(AppendAbsent(arr, forms), forms) == AppendAbsent(arr, forms)
  {
    AppendAbsentExtends(arr, forms);
    AppendAbsentPresent(AppendAbsent(arr, forms), forms);
  }
}
