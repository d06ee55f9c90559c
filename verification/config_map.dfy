/** LoadConfig and LoadConfigs: grouping the configured targets under their form list. */
module ConfigMap {
  import opened Text
  import opened Forms
  import opened ConfigLine

  /** The loader's std::unordered_map from a form list to the forms configured for it. */
  type Configs = map<FormList, seq<Form>>

  /** The vector held under l, empty when l has no entry. */
  function Get(m: Configs, l: FormList): seq<Form> {
    if l in m then m[l] else []
  }

  /**
   * The map update for one line: an Entry appends its target to the vector of its list, creating
   * the entry on first use; every other outcome leaves the map as it was.
   */
  function Record(m: Configs, r: LineResult): (m': Configs)
    ensures !r.Entry? ==> m' == m
    ensures r.Entry? ==> m'.Keys == m.Keys + {r.list} && m'[r.list] == Get(m, r.list) + [r.target]
    ensures r.Entry? ==> forall l :: l in m && l != r.list ==> m'[l] == m[l]
  {
    if !r.Entry? then m
    else if r.list !in m then m[r.list := [r.target]]
    else m[r.list := m[r.list] + [r.target]]
  }

  /** What LoadConfig makes of each line, in order. */
  function Outcomes(e: Engine, trim: seq<byte> -> seq<byte>, lines: seq<seq<byte>>): seq<LineResult>
    decreases |lines|
  {
    if lines == [] then []
    else Outcomes(e, trim, lines[..|lines| - 1]) + [Classify(e, trim, lines[|lines| - 1])]
  }

  /** The map after recording the outcomes rs, in order, starting from m. */
  function Grouped(m: Configs, rs: seq<LineResult>): Configs
    decreases |rs|
  {
    if rs == [] then m
    else Record(Grouped(m, rs[..|rs| - 1]), rs[|rs| - 1])
  }

  /** Reference definition: the targets the outcomes configure for l, in order. */
  function TargetsFor(rs: seq<LineResult>, l: FormList): seq<Form>
    decreases |rs|
  {
    if rs == [] then []
    else
      var r := rs[|rs| - 1];
      TargetsFor(rs[..|rs| - 1], l) + (if r.Entry? && r.list == l then [r.target] else [])
  }

  /** All the lines of the files, file after file. */
  function Concat(files: seq<seq<seq<byte>>>): seq<seq<byte>>
    decreases |files|
  {
    if files == [] then [] else Concat(files[..|files| - 1]) + files[|files| - 1]
  }

  /**
   * LoadConfig over the lines of one file (opening and reading the file is outside the model).
   * The map is the caller's, passed in and handed back.
   */
  method LoadConfig(e: Engine, trim: seq<byte> -> seq<byte>, m0: Configs, lines: seq<seq<byte>>)
    returns (m: Configs)
    ensures m == Grouped(m0, Outcomes(e, trim, lines))
    ensures forall l :: l in m <==> l in m0 || TargetsFor(Outcomes(e, trim, lines), l) != []
    ensures forall l :: l in m ==> m[l] == Get(m0, l) + TargetsFor(Outcomes(e, trim, lines), l)
  {
    m := m0;
    var i := 0;
    while i < |lines|
      invariant 0 <= i <= |lines|
      invariant m == Grouped(m0, Outcomes(e, trim, lines[..i]))
    {
      var r := ParseLine(e, trim, lines[i]);
      GroupedStep(e, trim, m0, lines, i);
      if r.Entry? {
        if r.list !in m {
          m := m[r.list := [r.target]];
        } else {
          m := m[r.list := m[r.list] + [r.target]];
        }
      }
      i := i + 1;
    }
    assert lines[..i] == lines;
    GroupedCollects(m0, Outcomes(e, trim, lines));
  }

  /** LoadConfigs: every configuration file loaded into one map, starting empty. */
  method LoadConfigs(e: Engine, trim: seq<byte> -> seq<byte>, files: seq<seq<seq<byte>>>)
    returns (m: Configs)
    ensures m == Grouped(map[], Outcomes(e, trim, Concat(files)))
    ensures forall l :: l in m <==> TargetsFor(Outcomes(e, trim, Concat(files)), l) != []
    ensures forall l :: l in m ==> m[l] == TargetsFor(Outcomes(e, trim, Concat(files)), l)
  {
    m := map[];
    var i := 0;
    while i < |files|
      invariant 0 <= i <= |files|
      invariant m == Grouped(map[], Outcomes(e, trim, Concat(files[..i])))
    {
      assert files[..i + 1][..i] == files[..i];
      OutcomesAppend(e, trim, Concat(files[..i]), files[i]);
      GroupedAppend(map[], Outcomes(e, trim, Concat(files[..i])), Outcomes(e, trim, files[i]));
      m := LoadConfig(e, trim, m, files[i]);
      i := i + 1;
    }
    assert files[..i] == files;
    GroupedCollects(map[], Outcomes(e, trim, Concat(files)));
  }

  /** Recording the outcome of line i extends the map recorded for the lines before it. */
  lemma GroupedStep(e: Engine, trim: seq<byte> -> seq<byte>, m0: Configs, lines: seq<seq<byte>>, i: nat)
    requires i < |lines|
    ensures Grouped(m0, Outcomes(e, trim, lines[..i + 1]))
         == Record(Grouped(m0, Outcomes(e, trim, lines[..i])), Classify(e, trim, lines[i]))
  {
    assert lines[..i + 1][..i] == lines[..i];
    var rs := Outcomes(e, trim, lines[..i + 1]);
    assert rs[..|rs| - 1] == Outcomes(e, trim, lines[..i]);
  }

  /**
   * Grouping, stated against the reference definition: a list has an entry exactly when it had
   * one before or some outcome configures it, and its vector is the old one followed by the
   * targets configured for it, in order.
   */
  lemma {:induction false} GroupedCollects(m: Configs, rs: seq<LineResult>)
    ensures forall l :: l in Grouped(m, rs) <==> l in m || TargetsFor(rs, l) != []
    ensures forall l :: l in Grouped(m, rs) ==> Grouped(m, rs)[l] == Get(m, l) + TargetsFor(rs, l)
  {
    forall l
      ensures l in Grouped(m, rs) <==> l in m || TargetsFor(rs, l) != []
    {
      GroupedAt(m, rs, l);
    }
    forall l | l in Grouped(m, rs)
      ensures Grouped(m, rs)[l] == Get(m, l) + TargetsFor(rs, l)
    {
      GroupedAt(m, rs, l);
    }
  }

  /** GroupedCollects for one list l. */
  lemma {:induction false} GroupedAt(m: Configs, rs: seq<LineResult>, l: FormList)
    ensures Get(Grouped(m, rs), l) == Get(m, l) + TargetsFor(rs, l)
    ensures l in Grouped(m, rs) <==> l in m || TargetsFor(rs, l) != []
    decreases |rs|
  {
    if rs == [] {
      assert Get(m, l) + [] == Get(m, l);
    } else {
      var init := rs[..|rs| - 1];
      GroupedAt(m, init, l);
      var r := rs[|rs| - 1];
      if !(r.Entry? && r.list == l) {
        assert TargetsFor(rs, l) == TargetsFor(init, l) + [];
      }
    }
  }

  /** Recording one batch of outcomes and then another is recording them all in one go. */
  lemma {:induction false} GroupedAppend(m: Configs, a: seq<LineResult>, b: seq<LineResult>)
    ensures Grouped(m, a + b) == Grouped(Grouped(m, a), b)
    decreases |b|
  {
    if b == [] {
      assert a + b == a;
    } else {
      assert (a + b)[..|a + b| - 1] == a + b[..|b| - 1];
      assert (a + b)[|a + b| - 1] == b[|b| - 1];
      GroupedAppend(m, a, b[..|b| - 1]);
    }
  }

  /** Lines are classified one by one, independently of the lines around them. */
  lemma {:induction false} OutcomesAppend(e: Engine, trim: seq<byte> -> seq<byte>, a: seq<seq<byte>>, b: seq<seq<byte>>)
    ensures Outcomes(e, trim, a + b) == Outcomes(e, trim, a) + Outcomes(e, trim, b)
    decreases |b|
  {
    if b == [] {
      assert a + b == a;
    } else {
      assert (a + b)[..|a + b| - 1] == a + b[..|b| - 1];
      assert (a + b)[|a + b| - 1] == b[|b| - 1];
      OutcomesAppend(e, trim, a, b[..|b| - 1]);
    }
  }

  /** An existing vector is only ever extended: the old vector is a prefix of the new. */
  lemma {:induction false} GroupedExtends(m: Configs, rs: seq<LineResult>)
    ensures forall l :: l in m ==> l in Grouped(m, rs) && m[l] <= Grouped(m, rs)[l]
  {
    GroupedCollects(m, rs);
  }

  /** Every list an outcome names is a form list the engine's cast returned, and so lies in lists. */
  lemma {:induction false} OutcomesWithin(e: Engine, trim: seq<byte> -> seq<byte>, lines: seq<seq<byte>>, lists: set<FormList>)
    requires ListsWithin(e, lists)
    ensures forall r :: r in Outcomes(e, trim, lines) && r.Entry? ==> r.list in lists
    decreases |lines|
  {
    if lines != [] {
      OutcomesWithin(e, trim, lines[..|lines| - 1], lists);
    }
  }

  /** Recording outcomes whose lists lie in lists adds no key outside lists. */
  lemma {:induction false} GroupedKeysWithin(m: Configs, rs: seq<LineResult>, lists: set<FormList>)
    requires m.Keys <= lists
    requires forall r :: r in rs && r.Entry? ==> r.list in lists
    ensures Grouped(m, rs).Keys <= lists
    decreases |rs|
  {
    if rs != [] {
      assert rs[|rs| - 1] in rs;
      assert forall r :: r in rs[..|rs| - 1] ==> r in rs;
      GroupedKeysWithin(m, rs[..|rs| - 1], lists);
    }
  }
}
