/** One line of a configuration file: listPlugin | listFormId | targetPlugin | targetFormId. */
module ConfigLine {
  import opened Text
  import opened Forms
  import opened Tokenizer

  /**
   * The four fields read from a trimmed line, or why there are not four. This is the line grammar
   * alone, with no engine in it, so that the round trip and the other field lemmas can be stated
   * without one; LineResult below adds the engine's answers, and Classify maps one onto the other.
   */
  datatype Parse =
    | Blank                     // empty after trimming, or a comment line
    | Missing(field: nat)       // the field with this number (1 to 4) is empty
    | Fields(listPlugin: seq<byte>, listFormId: seq<byte>, targetPlugin: seq<byte>, targetFormId: seq<byte>)

  /** What LoadConfig makes of one line; every outcome but Entry is logged and skipped. */
  datatype LineResult =
    | Skipped
    | EmptyField(field: nat)
    | ListNotFound
    | NotAFormList
    | TargetNotFound
    | Entry(list: FormList, target: Form)

  /** The field grammar applied to the already trimmed line t: three '|'-terminated fields, then the rest. */
  function Split(trim: seq<byte> -> seq<byte>, t: seq<byte>): Parse {
    if |t| == 0 || t[0] == HASH then Blank
    else
      var c1 := Scan(t, 0, BAR);
      var listPlugin := trim(c1.raw);
      if listPlugin == [] then Missing(1)
      else
        var c2 := Scan(t, c1.next, BAR);
        var listFormId := trim(c2.raw);
        if listFormId == [] then Missing(2)
        else
          var c3 := Scan(t, c2.next, BAR);
          var targetPlugin := trim(c3.raw);
          if targetPlugin == [] then Missing(3)
          else
            var c4 := Scan(t, c3.next, 0);
            var targetFormId := trim(c4.raw);
            if targetFormId == [] then Missing(4)
            else Fields(listPlugin, listFormId, targetPlugin, targetFormId)
  }

  /** One line as LoadConfig handles it: trim, split, then resolve the list and the target in the engine. */
  function Classify(e: Engine, trim: seq<byte> -> seq<byte>, line: seq<byte>): LineResult {
    match Split(trim, trim(line))
    case Blank => Skipped
    case Missing(n) => EmptyField(n)
    case Fields(listPlugin, listFormId, targetPlugin, targetFormId) =>
      match e.lookup(listPlugin, listFormId)
      case None => ListNotFound
      case Some(form) =>
        match e.asList(form)
        case None => NotAFormList
        case Some(list) =>
          match e.lookup(targetPlugin, targetFormId)
          case None => TargetNotFound
          case Some(target) => Entry(list, target)
  }

  /** The body of LoadConfig's per-line loop, up to the map update. */
  method ParseLine(e: Engine, trim: seq<byte> -> seq<byte>, line: seq<byte>) returns (r: LineResult)
    ensures r == Classify(e, trim, line)
  {
    var t := trim(line);
    if |t| == 0 || t[0] == HASH {
      return Skipped;
    }
    var index: nat := 0;
    var listPlugin, listFormId, targetPlugin, targetFormId;
    listPlugin, index := GetNextData(t, index, BAR, trim);
    if listPlugin == [] {
      return EmptyField(1);
    }
    listFormId, index := GetNextData(t, index, BAR, trim);
    if listFormId == [] {
      return EmptyField(2);
    }
    targetPlugin, index := GetNextData(t, index, BAR, trim);
    if targetPlugin == [] {
      return EmptyField(3);
    }
    targetFormId, index := GetNextData(t, index, 0, trim);
    if targetFormId == [] {
      return EmptyField(4);
    }
    var form := e.lookup(listPlugin, listFormId);
    if form.None? {
      return ListNotFound;
    }
    var listForm := e.asList(form.value);
    if listForm.None? {
      return NotAFormList;
    }
    form := e.lookup(targetPlugin, targetFormId);
    if form.None? {
      return TargetNotFound;
    }
    return Entry(listForm.value, form.value);
  }

  /** The line a rule is written as, with no spaces around the separators. */
  function Join(listPlugin: seq<byte>, listFormId: seq<byte>, targetPlugin: seq<byte>, targetFormId: seq<byte>): seq<byte> {
    listPlugin + [BAR] + listFormId + [BAR] + targetPlugin + [BAR] + targetFormId
  }

  /**
   * Every field of a parsed line is a non-empty run of the line that holds no '#' and no 0xFF;
   * the first three hold no '|' either, while the last may.
   */
  lemma SplitFieldsWellFormed(trim: seq<byte> -> seq<byte>, t: seq<byte>)
    requires IsTrim(trim)
    requires Split(trim, t).Fields?
    ensures var p := Split(trim, t);
      && p.listPlugin != [] && p.listFormId != [] && p.targetPlugin != [] && p.targetFormId != []
      && Plain(p.listPlugin, BAR) && Plain(p.listFormId, BAR) && Plain(p.targetPlugin, BAR)
      && Plain(p.targetFormId, 0)
      && IsInfix(p.listPlugin, t) && IsInfix(p.listFormId, t)
      && IsInfix(p.targetPlugin, t) && IsInfix(p.targetFormId, t)
  {
    var c1 := Scan(t, 0, BAR);
    var c2 := Scan(t, c1.next, BAR);
    var c3 := Scan(t, c2.next, BAR);
    var c4 := Scan(t, c3.next, 0);
    FieldOfScan(trim, t, 0, BAR);
    FieldOfScan(trim, t, c1.next, BAR);
    FieldOfScan(trim, t, c2.next, BAR);
    FieldOfScan(trim, t, c3.next, 0);
  }

  /** A trimmed field read by one scan is plain and a run of the line. */
  lemma FieldOfScan(trim: seq<byte> -> seq<byte>, t: seq<byte>, i: nat, delim: byte)
    requires IsTrim(trim)
    ensures Plain(trim(Scan(t, i, delim).raw), delim)
    ensures IsInfix(trim(Scan(t, i, delim).raw), t)
  {
    var c := Scan(t, i, delim);
    ScanShape(t, i, delim);
    TrimWithin(trim, c.raw);
    if i < |t| {
      assert c.raw == t[i..i + |c.raw|];
    } else {
      assert c.raw == t[0..0];
    }
    InfixTransitive(trim(c.raw), c.raw, t);
  }

  /** The number of bytes that end one of the first three fields: '|' and 0xFF. */
  function Separators(s: seq<byte>): nat {
    if s == [] then 0 else (if s[0] == BAR || s[0] == EOI then 1 else 0) + Separators(s[1..])
  }

  lemma {:induction false} SeparatorsAppend(a: seq<byte>, b: seq<byte>)
    ensures Separators(a + b) == Separators(a) + Separators(b)
  {
    if a == [] {
      assert a + b == b;
    } else {
      assert (a + b)[0] == a[0] && (a + b)[1..] == a[1..] + b;
      SeparatorsAppend(a[1..], b);
    }
  }

  lemma {:induction false} PlainHasNoSeparators(s: seq<byte>)
    requires Plain(s, BAR)
    ensures Separators(s) == 0
  {
    if s != [] {
      assert s[0] in s;
      assert forall x :: x in s[1..] ==> x in s;
      PlainHasNoSeparators(s[1..]);
    }
  }

  /**
   * A '|'-scan from i toward a '#' at p stops at or before p: on a '#', or one past a separator,
   * with one separator fewer left before p.
   */
  lemma ScanTowardComment(t: seq<byte>, i: nat, p: nat)
    requires i <= p < |t| && t[p] == HASH
    ensures var c := Scan(t, i, BAR);
      && c.next <= p
      && (t[c.next] == HASH || Separators(t[c.next..p]) + 1 == Separators(t[i..p]))
  {
    var c := Scan(t, i, BAR);
    ScanShape(t, i, BAR);
    var n := i + |c.raw|;
    ScanStopsFirst(t, i, BAR, p);
    if t[c.next] != HASH {
      assert c.next == n + 1 && n < p;
      SeparatorsSplit(t, i, n, p);
      SeparatorsSplit(t, n, n + 1, p);
      assert t[n..n + 1] == [t[n]];
      assert t[i..n] == c.raw;
      PlainHasNoSeparators(c.raw);
    }
  }

  /** Counting separators is additive over adjacent slices. */
  lemma SeparatorsSplit(s: seq<byte>, a: nat, b: nat, c: nat)
    requires a <= b <= c <= |s|
    ensures Separators(s[a..c]) == Separators(s[a..b]) + Separators(s[b..c])
  {
    assert s[a..c] == s[a..b] + s[b..c];
    SeparatorsAppend(s[a..b], s[b..c]);
  }

  /**
   * A '#' before the third separator empties a later field, so the line is never accepted:
   * a comment must come after the start of the fourth field.
   */
  lemma CommentBeforeThirdSeparator(trim: seq<byte> -> seq<byte>, t: seq<byte>, p: nat)
    requires IsTrim(trim)
    requires p < |t| && t[p] == HASH && Separators(t[..p]) < 3
    ensures !Split(trim, t).Fields?
  {
    TrimWithin(trim, []);
    if t[0] != HASH {
      assert t[..p] == t[0..p];
      var c1 := Scan(t, 0, BAR);
      ScanTowardComment(t, 0, p);
      if t[c1.next] != HASH {
        var c2 := Scan(t, c1.next, BAR);
        ScanTowardComment(t, c1.next, p);
        if t[c2.next] != HASH {
          var c3 := Scan(t, c2.next, BAR);
          ScanTowardComment(t, c2.next, p);
          assert t[c3.next] == HASH;
        }
      }
    }
  }

  /**
   * Round trip: a rule written as Join of four non-empty fields that the trimmer keeps as they
   * are, the first three free of '#', '|' and 0xFF and the last free of '#' and 0xFF, splits
   * back into exactly those fields.
   */
  lemma SplitJoin(trim: seq<byte> -> seq<byte>, listPlugin: seq<byte>, listFormId: seq<byte>,
                  targetPlugin: seq<byte>, targetFormId: seq<byte>)
    requires listPlugin != [] && listFormId != [] && targetPlugin != [] && targetFormId != []
    requires Plain(listPlugin, BAR) && Plain(listFormId, BAR) && Plain(targetPlugin, BAR)
    requires Plain(targetFormId, 0)
    requires trim(listPlugin) == listPlugin && trim(listFormId) == listFormId
    requires trim(targetPlugin) == targetPlugin && trim(targetFormId) == targetFormId
    ensures Split(trim, Join(listPlugin, listFormId, targetPlugin, targetFormId))
         == Fields(listPlugin, listFormId, targetPlugin, targetFormId)
  {
    var t := Join(listPlugin, listFormId, targetPlugin, targetFormId);
    var head2 := listPlugin + [BAR];
    var head3 := head2 + listFormId + [BAR];
    var head4 := head3 + targetPlugin + [BAR];
    JoinLayout(listPlugin, listFormId, targetPlugin, targetFormId);
    assert listPlugin[0] in listPlugin;
    ScanField(t, [], listPlugin, [BAR] + listFormId + [BAR] + targetPlugin + [BAR] + targetFormId);
    ScanField(t, head2, listFormId, [BAR] + targetPlugin + [BAR] + targetFormId);
    ScanField(t, head3, targetPlugin, [BAR] + targetFormId);
    ScanLast(t, head4, targetFormId);
    var c1 := Scan(t, 0, BAR);
    assert c1 == Cut(listPlugin, |head2|);
    var c2 := Scan(t, c1.next, BAR);
    assert c2 == Cut(listFormId, |head3|);
    var c3 := Scan(t, c2.next, BAR);
    assert c3 == Cut(targetPlugin, |head4|);
  }

  /** Where each field of a joined rule begins and what follows it. */
  lemma JoinLayout(listPlugin: seq<byte>, listFormId: seq<byte>, targetPlugin: seq<byte>, targetFormId: seq<byte>)
    ensures var t := Join(listPlugin, listFormId, targetPlugin, targetFormId);
      var head2 := listPlugin + [BAR];
      var head3 := head2 + listFormId + [BAR];
      var head4 := head3 + targetPlugin + [BAR];
      && t == [] + listPlugin + ([BAR] + listFormId + [BAR] + targetPlugin + [BAR] + targetFormId)
      && t == head2 + listFormId + ([BAR] + targetPlugin + [BAR] + targetFormId)
      && t == head3 + targetPlugin + ([BAR] + targetFormId)
      && t == head4 + targetFormId
  {
  }

  /** A '|'-terminated field f after head is read whole, and the cursor is left just past its '|'. */
  lemma ScanField(t: seq<byte>, head: seq<byte>, f: seq<byte>, tail: seq<byte>)
    requires Plain(f, BAR) && t == head + f + tail && tail != [] && tail[0] == BAR
    ensures Scan(t, |head|, BAR) == Cut(f, |head| + |f| + 1)
  {
    var i := |head|;
    assert t[i..i + |f|] == f;
    assert t[i + |f|] == BAR;
    ScanAcross(t, i, f, BAR);
    assert f + [] == f;
  }

  /** The last field f, running to the end of the line, is read whole with no delimiter. */
  lemma ScanLast(t: seq<byte>, head: seq<byte>, f: seq<byte>)
    requires Plain(f, 0) && t == head + f
    ensures Scan(t, |head|, 0) == Cut(f, |t|)
  {
    var i := |head|;
    assert t[i..i + |f|] == f;
    ScanAcross(t, i, f, 0);
    assert f + [] == f;
  }

  /** For a|b|c|d|e the fourth field runs to the end of the line: it is d|e. */
  lemma FourthFieldMayHoldBars(trim: seq<byte> -> seq<byte>)
    requires var a, b, c, d, e := 0x61 as byte, 0x62 as byte, 0x63 as byte, 0x64 as byte, 0x65 as byte;
      trim([a]) == [a] && trim([b]) == [b] && trim([c]) == [c] && trim([d, BAR, e]) == [d, BAR, e]
    ensures var a, b, c, d, e := 0x61 as byte, 0x62 as byte, 0x63 as byte, 0x64 as byte, 0x65 as byte;
      Split(trim, [a, BAR, b, BAR, c, BAR, d, BAR, e]) == Fields([a], [b], [c], [d, BAR, e])
  {
    var a, b, c, d, e := 0x61 as byte, 0x62 as byte, 0x63 as byte, 0x64 as byte, 0x65 as byte;
    assert Join([a], [b], [c], [d, BAR, e]) == [a, BAR, b, BAR, c, BAR, d, BAR, e];
    SplitJoin(trim, [a], [b], [c], [d, BAR, e]);
  }
}
