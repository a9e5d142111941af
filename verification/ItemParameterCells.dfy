/** backend/src/items/item-parameter-import.pipeline.ts: which item a line names, and what its cells
    mean. */
module ItemParameterCells {
  import opened ItemParameterImport
  import opened ItemParameterResults
  import opened Outcomes

  // --------------------------------------------------------------------- the names of items

  lemma {:induction false} ReferenceOfBoth(a: string, b: string)
    ensures Reference(a + b) == Reference(a) + Reference(b)
  {
    if a == [] {
      assert a + b == b;
    } else {
      ReferenceOfBoth(a[1..], b);
      assert (a + b)[1..] == a[1..] + b;
    }
  }

  lemma {:induction false} ReferenceOfOthers(s: string)
    requires forall i :: 0 <= i < |s| ==> !Alphanumeric(s[i])
    ensures Reference(s) == []
  {
    if s != [] { ReferenceOfOthers(s[1..]); }
  }

  function Lowered(s: string): string {
    seq(|s|, i requires 0 <= i < |s| => if 'A' <= s[i] <= 'Z' then s[i] + 32 as char else s[i])
  }

  lemma {:induction false} ReferenceIgnoresCase(s: string)
    ensures Reference(Lowered(s)) == Reference(s)
  {
    if s != [] {
      ReferenceIgnoresCase(s[1..]);
      assert Lowered(s)[1..] == Lowered(s[1..]);
    }
  }

  /** The three names of an item: its id, and its id behind that or the label of its unit. */
  predicate IsNameOf(item: Item, name: string, separator: string) {
    name == item.itemId || name == item.unitId + separator + item.itemId || name == item.unitLabel + separator + item.itemId
  }

  lemma JoinedReference(a: string, separator: string, b: string)
    requires forall j :: 0 <= j < |separator| ==> !Alphanumeric(separator[j])
    ensures Reference(a + separator + b) == Reference(a) + Reference(b)
  {
    ReferenceOfOthers(separator);
    ReferenceOfBoth(a + separator, b);
    ReferenceOfBoth(a, separator);
    assert Reference(a) + [] == Reference(a);
  }

  lemma NameMatches(item: Item, name: string, separator: string)
    requires IsNameOf(item, name, separator) && forall j :: 0 <= j < |separator| ==> !Alphanumeric(separator[j])
    ensures Matches(item, Reference(name))
  {
    JoinedReference(item.unitId, separator, item.itemId);
    JoinedReference(item.unitLabel, separator, item.itemId);
  }

  /** Each name finds the item, in upper or lower case and with any separator that has no letter and
      no digit, unless the name finds an item before it. */
  lemma NamesFindTheItem(items: seq<Item>, i: nat, name: string, separator: string, raw: string)
    requires i < |items| && IsNameOf(items[i], name, separator) && Lowered(raw) == Lowered(name)
    requires forall j :: 0 <= j < |separator| ==> !Alphanumeric(separator[j])
    ensures FindItem(items, raw).Some?
    ensures FindItem(items[..i], raw) == None ==> FindItem(items, raw) == Some(items[i])
  {
    NameMatches(items[i], name, separator);
    ReferenceIgnoresCase(raw);
    ReferenceIgnoresCase(name);
    FindsFirst(items, i, raw);
  }

  lemma {:induction false} FindsFirst(items: seq<Item>, i: nat, raw: string)
    requires i < |items| && Matches(items[i], Reference(raw))
    ensures FindItem(items, raw) == if FindItem(items[..i], raw).Some? then FindItem(items[..i], raw) else Some(items[i])
  {
    if i > 0 {
      FindsFirst(items[1..], i - 1, raw);
      assert items[..i][1..] == items[1..][..i - 1];
    }
  }

  /** What is found has one of the three names. */
  lemma {:induction false} FoundHasTheName(items: seq<Item>, raw: string)
    requires FindItem(items, raw).Some?
    ensures var item := FindItem(items, raw).value;
      item in items && Reference(raw) in {Reference(item.itemId), Reference(item.unitId + item.itemId), Reference(item.unitLabel + item.itemId)}
  {
    if Matches(items[0], Reference(raw)) {
      ReferenceOfBoth(items[0].unitId, items[0].itemId);
      ReferenceOfBoth(items[0].unitLabel, items[0].itemId);
    } else {
      FoundHasTheName(items[1..], raw);
    }
  }

  // ------------------------------------------------------------------------------ cells

  /** A position is a positive whole number, and never without a booklet. */
  lemma MentionExactly(env: Env, columns: Columns, row: Row, booklet: string, n: nat)
    ensures var m, position := MentionOf(env, columns, true, row), OptionalCell(row, columns.position);
      && (m == Ok(At(Occurrence(booklet, None))) <==> OptionalCell(row, columns.booklet) == booklet != "" && position == "")
      && (m == Ok(At(Occurrence(booklet, Some(n)))) <==>
            OptionalCell(row, columns.booklet) == booklet != "" && position != "" && n > 0 && env.plainNumber(position) == Some(n as real))
      && (m == Ok(Nowhere) <==> OptionalCell(row, columns.booklet) == "" && position == "")
      && m != Ok(Unasked)
  {
    assert (n as real).Floor == n;
  }

  /** What the cells of an accepted line mean: texts as they stand, levels as they are known, and
      numbers, of which times are not negative. */
  lemma CellsMean(env: Env, columns: Columns, w: bool, items: seq<Item>, row: Row, p: Property)
    requires var v := VerdictOf(env, columns, w, items, row); Accepted(v) && p in v.content.value.values
    ensures p in columns.at
    ensures var cell, x := Cell(row, columns.at[p]), VerdictOf(env, columns, w, items, row).content.value.values[p];
      match p {
        case TextComplexity => x == Txt(cell)
        case CompetenceLevel => env.level(cell).Some? && x == Txt(env.level(cell).value)
        case _ =>
          env.number(cell).Some? && x == Num(env.number(cell).value) && (p == ItemTimeSeconds || p == StimulusTimeSeconds ==> env.number(cell).value >= 0.0)
      }
  {
    AcceptedCells(env, columns, w, items, row, p);
  }
}
