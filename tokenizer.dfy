/**
 * `custom_split`: the label-aware splitter that turns one exported
 * "LABEL: value, LABEL: value, ..." string into its "LABEL: value" items.
 * A ':' or ',' separates fields only when the text before the next ':'
 * is one of the known column labels; otherwise it is part of a value.
 *
 * The label list is the parameter `known`; the audit transform always
 * passes `Headers.HeaderList` (the global `headerList` of the script).
 * `ScanValue`/`ScanStep` and `Tokens` state what the two nested loops
 * compute, `TrimTrailing` what the clean-up loop computes, and the
 * methods are the loop program itself, proved to agree with them.
 */
module Tokenizer {
  import opened PyText
  import SeqFacts

  /**
   * The inner loop of `custom_split`: starting with the item text `title`
   * and the unread input `row`, absorb value text until the next known
   * label (or the end) and return the finished item and the unread rest.
   */
  function ScanValue(known: seq<string>, title: string, row: string): (r: (string, string))
    decreases |row|, 1
    ensures |r.1| <= |row|
  {
    if |row| == 0 then (title, row)
    else if row[0] == ' ' then ScanStep(known, title + " ", row[1..])
    else ScanStep(known, title, row)
  }

  /** One pass of the inner loop's body, after a leading space has moved into the item. */
  function ScanStep(known: seq<string>, title: string, row: string): (r: (string, string))
    decreases |row|, 0
    ensures |r.1| <= |row|
  {
    var c, k := Find(row, ','), Find(row, ':');
    if c < k then
      if c == -1 && row[..k] in known then (title, row)
      else if c == -1 then (title + row, [])
      else ScanValue(known, title + row[..c + 1], row[c + 1..])
    else if k < c then
      if k == -1 then (title + row, [])
      else if row[..k] !in known then ScanValue(known, title + row[..k + 1], row[k + 1..])
      else (title, row)
    else (title + row, row)
  }

  /**
   * How a scan divides its input: the item only grows, and either the text
   * is split between the item and the unread rest, or (the last branch of
   * the loop, which leaves `row` in place) all of it went into the item and
   * the rest holds no ':'.
   */
  ghost predicate Divides(title: string, row: string, r: (string, string))
  {
    && title <= r.0
    && ((r.0 + r.1 == title + row && (r.1 == [] || ':' in r.1))
        || (r.0 == title + row && ':' !in r.1))
  }

  lemma {:induction false} ScanValueDivides(known: seq<string>, title: string, row: string)
    ensures Divides(title, row, ScanValue(known, title, row))
    decreases |row|, 1
  {
    if |row| > 0 && row[0] == ' ' {
      ScanStepDivides(known, title + " ", row[1..]);
      assert (title + " ") + row[1..] == title + row;
    } else if |row| > 0 {
      ScanStepDivides(known, title, row);
    }
  }

  lemma {:induction false} ScanStepDivides(known: seq<string>, title: string, row: string)
    ensures Divides(title, row, ScanStep(known, title, row))
    decreases |row|, 0
  {
    var c, k := Find(row, ','), Find(row, ':');
    if c < k && c != -1 {
      ScanValueDivides(known, title + row[..c + 1], row[c + 1..]);
      assert (title + row[..c + 1]) + row[c + 1..] == title + row;
    } else if k < c && k != -1 && row[..k] !in known {
      ScanValueDivides(known, title + row[..k + 1], row[k + 1..]);
      assert (title + row[..k + 1]) + row[k + 1..] == title + row;
    }
  }

  /**
   * The outer loop of `custom_split`: the untrimmed items of `row`. Each
   * item begins with the text up to and including a ':', and there is at
   * least one item exactly when the input holds a ':'.
   */
  function Tokens(known: seq<string>, row: string): (items: seq<string>)
    decreases |row|
    ensures forall i :: 0 <= i < |items| ==> ':' in items[i]
    ensures ':' in row <==> |items| > 0
  {
    if |row| == 0 then []
    else
      var k := Find(row, ':');
      if k == -1 then []
      else if Find(row, ',') == -1 then [row]
      else
        var scan := ScanValue(known, row[..k + 1], row[k + 1..]);
        ScanValueDivides(known, row[..k + 1], row[k + 1..]);
        assert scan.0[k] == ':';
        [scan.0] + Tokens(known, scan.1)
  }

  /**
   * The clean-up loop: drop trailing ',' and ' ' characters. An item holds
   * a ':', so the loop stops at the ':' at the latest and never indexes an
   * empty string.
   */
  function TrimTrailing(s: string): (r: string)
    requires ':' in s
    decreases |s|
    ensures r <= s && ':' in r
    ensures r[|r| - 1] != ',' && r[|r| - 1] != ' '
    ensures forall i :: |r| <= i < |s| ==> s[i] == ',' || s[i] == ' '
  {
    if s[|s| - 1] == ',' || s[|s| - 1] == ' ' then
      assert ':' in s[..|s| - 1] by {
        var k := Find(s, ':');
        assert s[..|s| - 1][k] == ':';
      }
      TrimTrailing(s[..|s| - 1])
    else s
  }

  /** What `custom_split` returns for `row`: every item, trimmed. */
  function Split(known: seq<string>, row: string): (items: seq<string>)
    ensures |items| == |Tokens(known, row)|
    ensures ':' !in row ==> items == []
    ensures forall i :: 0 <= i < |items| ==>
              items[i] <= Tokens(known, row)[i] && ':' in items[i]
              && items[i][|items[i]| - 1] != ',' && items[i][|items[i]| - 1] != ' '
  {
    var raw := Tokens(known, row);
    seq(|raw|, i requires 0 <= i < |raw| => TrimTrailing(raw[i]))
  }

  /**
   * The inner `while` of `custom_split` (lines 138-168): extend the item
   * `title` with value text from `row`, returning both updated.
   */
  method ReadValue(known: seq<string>, title0: string, row0: string) returns (title: string, row: string)
    ensures (title, row) == ScanValue(known, title0, row0)
  {
    title, row := title0, row0;
    while |row| != 0
      invariant ScanValue(known, title, row) == ScanValue(known, title0, row0)
      decreases |row|
    {
      if row[0] == ' ' {
        title := title + " ";
        row := row[1..];
      }
      var comma, colon := Find(row, ','), Find(row, ':');
      if comma < colon {
        if comma == -1 && row[..colon] in known {
          return;
        }
        if comma == -1 {
          title := title + row;
          row := [];
          return;
        } else {
          title := title + row[..comma + 1];
          row := row[comma + 1..];
        }
      } else if colon < comma {
        if colon == -1 {
          title := title + row;
          row := [];
          return;
        } else if row[..colon] !in known {
          title := title + row[..colon + 1];
          row := row[colon + 1..];
        } else {
          return;
        }
      } else {
        title := title + row;
        return;
      }
    }
  }

  /** The trimming `while` of `custom_split` (lines 176-178) for one item. */
  method TrimItem(item: string) returns (copy: string)
    requires ':' in item
    ensures copy == TrimTrailing(item)
  {
    copy := item;
    while copy[|copy| - 1] == ',' || copy[|copy| - 1] == ' '
      invariant ':' in copy
      invariant TrimTrailing(copy) == TrimTrailing(item)
      decreases |copy|
    {
      assert ':' in copy[..|copy| - 1] by {
        var k := Find(copy, ':');
        assert copy[..|copy| - 1][k] == ':';
      }
      copy := copy[..|copy| - 1];
    }
  }

  /** The clean-up `for` of `custom_split` (lines 174-179): trim every item. */
  method TrimItems(items: seq<string>) returns (result: seq<string>)
    requires forall j :: 0 <= j < |items| ==> ':' in items[j]
    ensures |result| == |items|
    ensures forall j :: 0 <= j < |items| ==> result[j] == TrimTrailing(items[j])
  {
    result := [];
    var i := 0;
    while i < |items|
      invariant 0 <= i <= |items|
      invariant |result| == i
      invariant forall j :: 0 <= j < i ==> result[j] == TrimTrailing(items[j])
    {
      var copy := TrimItem(items[i]);
      result := result + [copy];
      i := i + 1;
    }
  }

  /** One turn of the outer loop, for a row that has both a ':' and a ','. */
  lemma TokensUnfold(known: seq<string>, row: string)
    requires ':' in row && ',' in row
    ensures var k := Find(row, ':');
            var scan := ScanValue(known, row[..k + 1], row[k + 1..]);
            Tokens(known, row) == [scan.0] + Tokens(known, scan.1)
  {
  }

  /** One turn of the outer loop, as `CustomSplit` takes it: the items read so far gain one. */
  lemma AppendTurn(known: seq<string>, items: seq<string>, row: string, k: int, title: string, rest: string)
    requires k == Find(row, ':') && k != -1 && Find(row, ',') != -1
    requires (title, rest) == ScanValue(known, row[..k + 1], row[k + 1..])
    ensures items + Tokens(known, row) == (items + [title]) + Tokens(known, rest)
    ensures |rest| < |row|
  {
    assert Tokens(known, row) == [title] + Tokens(known, rest) by {
      TokensUnfold(known, row);
    }
    assert |rest| <= |row[k + 1..]|;
    SeqFacts.AppendAssoc(items, [title], Tokens(known, rest));
  }

  /** `custom_split(row)` with `headerList` as `known`: split `input` into items, then trim each. */
  method CustomSplit(known: seq<string>, input: string) returns (result: seq<string>)
    ensures result == Split(known, input)
  {
    var row := input;
    var items: seq<string> := [];
    ghost var unread := Tokens(known, input);
    while |row| != 0
      invariant items + unread == Tokens(known, input)
      invariant unread == Tokens(known, row)
      decreases |row|
    {
      var colon := Find(row, ':');
      if colon == -1 {
        break;
      }
      var title := row[..colon + 1];
      if Find(row, ',') == -1 {
        TokensSingle(known, row);
        title := row;
        items := items + [title];
        unread := [];
        break;
      }
      ghost var row0 := row;
      row := row[colon + 1..];
      title, row := ReadValue(known, title, row);
      AppendTurn(known, items, row0, colon, title, row);
      items := items + [title];
      unread := Tokens(known, row);
    }
    assert unread == [];
    assert items == items + unread;
    result := TrimItems(items);
  }

  // ---------------------------------------------------------------------
  // What the splitter promises

  /** The items joined back together, in order. */
  function Concat(items: seq<string>): string
  {
    if |items| == 0 then [] else items[0] + Concat(items[1..])
  }

  /** Joining a first item and the rest. */
  lemma ConcatCons(x: string, items: seq<string>)
    ensures Concat([x] + items) == x + Concat(items)
  {
    assert ([x] + items)[1..] == items;
  }

  /** A row with a ':' but no ',' is one item. */
  lemma TokensSingle(known: seq<string>, row: string)
    requires ':' in row && ',' !in row
    ensures Tokens(known, row) == [row]
  {
  }

  /**
   * One turn of the outer loop on a row with a ':' and a ',': the first item
   * and the unread rest, which is shorter than the row and together with the
   * item spells it out, unless the item took all of the row.
   */
  lemma TokensTurn(known: seq<string>, row: string) returns (item: string, rest: string)
    requires ':' in row && ',' in row
    ensures Tokens(known, row) == [item] + Tokens(known, rest)
    ensures |rest| < |row|
    ensures ':' in rest ==> item + rest == row
    ensures ':' !in rest ==> item == row
  {
    var k := Find(row, ':');
    var scan := ScanValue(known, row[..k + 1], row[k + 1..]);
    TokensUnfold(known, row);
    ScanValueDivides(known, row[..k + 1], row[k + 1..]);
    CutJoin(row, k + 1);
    item, rest := scan.0, scan.1;
    assert row[..k + 1] + row[k + 1..] == row;
  }

  /** The splitter loses nothing: the untrimmed items, joined, spell out the input. */
  lemma {:induction false} TokensLossless(known: seq<string>, row: string)
    requires ':' in row
    ensures Concat(Tokens(known, row)) == row
    decreases |row|
  {
    if ',' !in row {
      TokensSingle(known, row);
      ConcatCons(row, []);
    } else {
      var item, rest := TokensTurn(known, row);
      ConcatCons(item, Tokens(known, rest));
      if ':' in rest {
        TokensLossless(known, rest);
      } else {
        assert Tokens(known, rest) == [];
      }
    }
  }

  /** Where the first `c` of `pre + [sep] + post` is, when `pre` holds neither `c` nor `sep`. */
  lemma FindAfter(pre: string, sep: char, post: string, c: char)
    requires c !in pre && sep !in pre
    ensures var row := pre + [sep] + post;
            && row[..|pre|] == pre && row[..|pre| + 1] == pre + [sep] && row[|pre| + 1..] == post
            && Find(row, sep) == |pre|
            && (c != sep ==> Find(row, c) == if c in post then |pre| + 1 + Find(post, c) else -1)
  {
    var rest := [sep] + post;
    ThreeParts(pre, [sep], post);
    FindConcat(pre, rest, sep);
    assert Find(rest, sep) == 0;
    if c != sep {
      FindConcat(pre, rest, c);
      FindConcat([sep], post, c);
    }
  }

  /** The inner loop stops at a ':' whose preceding text is a label, unless a ',' comes first. */
  lemma StepStops(known: seq<string>, title: string, row: string, n: nat)
    requires Find(row, ':') == n && row[..n] in known
    requires Find(row, ',') == -1 || Find(row, ',') > n
    ensures ScanStep(known, title, row) == (title, row)
  {
  }

  /** The inner loop absorbs a ':' whose preceding text is not a label. */
  lemma StepAbsorbsColon(known: seq<string>, title: string, row: string, n: nat)
    requires Find(row, ':') == n && row[..n] !in known
    requires Find(row, ',') == -1 || Find(row, ',') > n
    ensures ScanStep(known, title, row)
         == if Find(row, ',') == -1 then (title + row, []) else ScanValue(known, title + row[..n + 1], row[n + 1..])
  {
  }

  /** The inner loop absorbs a ',' that comes before the next ':'. */
  lemma StepAbsorbsComma(known: seq<string>, title: string, row: string, n: nat)
    requires Find(row, ',') == n
    requires Find(row, ':') == -1 || Find(row, ':') > n
    ensures ScanStep(known, title, row)
         == if Find(row, ':') == -1 then (title + row, []) else ScanValue(known, title + row[..n + 1], row[n + 1..])
  {
    var c, k := Find(row, ','), Find(row, ':');
    if k == -1 {
      assert k < c;
      assert ScanStep(known, title, row) == (title + row, []);
    } else {
      assert c < k && c != -1;
      assert ScanStep(known, title, row) == ScanValue(known, title + row[..c + 1], row[c + 1..]);
    }
  }

  /** A label followed by ':' ends the value being read and is left unread. */
  lemma StopsAtLabel(known: seq<string>, title: string, name: string, rest: string)
    requires name in known && ':' !in name && ',' !in name
    ensures ScanStep(known, title, name + ":" + rest) == (title, name + ":" + rest)
    ensures ScanValue(known, title, " " + name + ":" + rest) == (title + " ", name + ":" + rest)
  {
    FindAfter(name, ':', rest, ',');
    StepStops(known, title, name + ":" + rest, |name|);
    assert (" " + name + ":" + rest)[1..] == name + ":" + rest;
  }

  /**
   * A ':' whose preceding text is not a label is absorbed into the value;
   * when no ',' follows, the whole remainder is.
   */
  lemma AbsorbsColon(known: seq<string>, title: string, text: string, rest: string)
    requires text !in known && ':' !in text && ',' !in text
    ensures ScanStep(known, title, text + ":" + rest)
         == if ',' in rest then ScanValue(known, title + text + ":", rest)
            else (title + text + ":" + rest, [])
  {
    FindAfter(text, ':', rest, ',');
    StepAbsorbsColon(known, title, text + ":" + rest, |text|);
    assert title + (text + ":" + rest) == title + text + ":" + rest;
    assert title + (text + ":") == title + text + ":";
  }

  /**
   * A ',' is absorbed into the value (the next pass then checks for a
   * label); with no ':' after it, the whole remainder is.
   */
  lemma AbsorbsComma(known: seq<string>, title: string, text: string, rest: string)
    requires ':' !in text && ',' !in text
    ensures ScanStep(known, title, text + "," + rest)
         == if ':' in rest then ScanValue(known, title + text + ",", rest)
            else (title + text + "," + rest, [])
  {
    FindAfter(text, ',', rest, ':');
    StepAbsorbsComma(known, title, text + "," + rest, |text|);
    assert title + (text + "," + rest) == title + text + "," + rest;
    assert title + (text + ",") == title + text + ",";
  }

  /** One "LABEL: value" field of an exported row. */
  datatype Field = Field(name: string, value: string)

  /** The text of one field. */
  function Item(f: Field): string
  {
    f.name + ": " + f.value
  }

  /** The export format: fields joined by ", ". */
  function Render(fs: seq<Field>): string
  {
    if |fs| == 0 then []
    else if |fs| == 1 then Item(fs[0])
    else Item(fs[0]) + ", " + Render(fs[1..])
  }

  /** A field the splitter cuts out on its own: a known label, and a label and value free of separators. */
  predicate Separable(known: seq<string>, f: Field)
  {
    && f.name in known && ':' !in f.name && ',' !in f.name
    && ':' !in f.value && ',' !in f.value
  }

  /** A field the splitter gives back unchanged: separable, with a value that is not empty and does not end in ' '. */
  predicate WellFormed(known: seq<string>, f: Field)
  {
    Separable(known, f) && |f.value| > 0 && f.value[|f.value| - 1] != ' '
  }

  /** What the splitter gives back for a field: its text with trailing spaces trimmed. */
  function Recovered(f: Field): string
  {
    ItemColon(f);
    TrimTrailing(Item(f))
  }

  /** A field's text holds the ':' after its label. */
  lemma ItemColon(f: Field)
    ensures ':' in Item(f)
  {
    assert Item(f)[|f.name|] == ':';
  }

  /** What follows the first label's ':' in a rendered row. */
  function AfterHead(fs: seq<Field>): string
    requires |fs| > 0
  {
    " " + fs[0].value + (if |fs| == 1 then [] else ", " + Render(fs[1..]))
  }

  /** A rendered row begins with its first label and a ':'. */
  lemma RenderHead(fs: seq<Field>)
    requires |fs| > 0
    ensures Render(fs) == fs[0].name + ":" + AfterHead(fs)
  {
    if |fs| == 1 {
      ItemHead(fs[0], []);
    } else {
      ItemHead(fs[0], ", " + Render(fs[1..]));
    }
  }

  /** A field's text, and whatever follows it, cut after the label's ':'. */
  lemma ItemHead(f: Field, tail: string)
    ensures Item(f) + tail == f.name + ":" + (" " + f.value + tail)
    ensures Item(f) + [] == Item(f)
  {
    assert f.name + ": " == f.name + ":" + " ";
  }

  /** Reading the value of a well-formed field stops right before the next label. */
  lemma ReadsOneField(known: seq<string>, title: string, value: string, name: string, tail: string)
    requires ':' !in value && ',' !in value
    requires name in known && ':' !in name && ',' !in name
    ensures ScanValue(known, title, " " + value + ", " + name + ":" + tail)
         == (title + " " + value + ", ", name + ":" + tail)
  {
    var row := " " + value + ", " + name + ":" + tail;
    var next := " " + name + ":" + tail;
    var t := title + " " + value + ",";
    assert row[1..] == value + "," + next;
    assert ':' in next by {
      assert next[|name| + 1] == ':';
    }
    AbsorbsComma(known, title + " ", value, next);
    StopsAtLabel(known, t, name, tail);
    assert t + " " == title + " " + value + ", ";
  }

  /** The untrimmed items a rendered row should split into: each field, with ", " after all but the last. */
  function Separated(fs: seq<Field>): (items: seq<string>)
    ensures |items| == |fs|
  {
    if |fs| == 0 then []
    else if |fs| == 1 then [Item(fs[0])]
    else [Item(fs[0]) + ", "] + Separated(fs[1..])
  }

  lemma {:induction false} SeparatedAt(fs: seq<Field>, i: nat)
    requires i < |fs|
    ensures Separated(fs)[i] == if i == |fs| - 1 then Item(fs[i]) else Item(fs[i]) + ", "
    decreases i
  {
    if i > 0 {
      SeparatedAt(fs[1..], i - 1);
    }
  }

  /** A separable field on its own is one item. */
  lemma TokensOfItem(known: seq<string>, f: Field)
    requires Separable(known, f)
    ensures Tokens(known, Item(f)) == [Item(f)]
  {
    var row := Item(f);
    assert row[|f.name|] == ':';
    assert ',' !in row by {
      assert row == f.name + ":" + " " + f.value;
    }
  }

  /** The outer loop reads one field and goes on at the next label. */
  lemma TokensReadField(known: seq<string>, name: string, value: string, next: string, tail: string)
    requires ':' !in name && ',' !in name && ':' !in value && ',' !in value
    requires next in known && ':' !in next && ',' !in next
    ensures Tokens(known, name + ":" + (" " + value + ", " + next + ":" + tail))
         == [name + ":" + " " + value + ", "] + Tokens(known, next + ":" + tail)
  {
    var post := " " + value + ", " + next + ":" + tail;
    var row := name + ":" + post;
    FindAfter(name, ':', post, ',');
    assert ',' in row by {
      assert row[|name| + 2 + |value|] == ',';
    }
    TokensUnfold(known, row);
    ReadsOneField(known, name + ":", value, next, tail);
  }

  /** The outer loop reads the first field of a rendered row and goes on at the second label. */
  lemma TokensRenderStep(known: seq<string>, fs: seq<Field>)
    requires |fs| >= 2 && Separable(known, fs[0]) && Separable(known, fs[1])
    ensures Tokens(known, Render(fs)) == [Item(fs[0]) + ", "] + Tokens(known, Render(fs[1..]))
  {
    var f, rest := fs[0], fs[1..];
    RenderHead(rest);
    RenderSecond(fs);
    TokensReadField(known, f.name, f.value, rest[0].name, AfterHead(rest));
  }

  /** A row of two fields or more, cut at the second label. */
  lemma RenderSecond(fs: seq<Field>)
    requires |fs| >= 2
    ensures Render(fs) == fs[0].name + ":" + (" " + fs[0].value + ", " + fs[1].name + ":" + AfterHead(fs[1..]))
    ensures fs[0].name + ":" + " " + fs[0].value + ", " == Item(fs[0]) + ", "
  {
    var rest := fs[1..];
    assert Render(fs) == Item(fs[0]) + ", " + Render(rest);
    RenderHead(rest);
    JoinShape(fs[0].name, fs[0].value, rest[0].name, AfterHead(rest));
  }

  /** Regrouping the text of a field followed by the next label. */
  lemma JoinShape(x: string, v: string, n: string, a: string)
    ensures (x + ": " + v) + ", " + (n + ":" + a) == x + ":" + (" " + v + ", " + n + ":" + a)
    ensures x + ":" + " " + v + ", " == (x + ": " + v) + ", "
  {
    assert x + ":" + " " == x + ": ";
    var lhs := (x + ": " + v) + ", " + (n + ":" + a);
    var rhs := x + ":" + (" " + v + ", " + n + ":" + a);
    forall i | 0 <= i < |lhs|
      ensures lhs[i] == rhs[i]
    {
      if i < |x| {
      } else if i < |x| + 2 + |v| {
      } else if i < |x| + 4 + |v| + |n| {
      }
    }
  }

  /** The untrimmed items of a row rendered from separable fields. */
  lemma {:induction false} TokensRender(known: seq<string>, fs: seq<Field>)
    requires forall i :: 0 <= i < |fs| ==> Separable(known, fs[i])
    ensures Tokens(known, Render(fs)) == Separated(fs)
  {
    if |fs| == 1 {
      TokensOfItem(known, fs[0]);
    } else if |fs| >= 2 {
      TokensRenderStep(known, fs);
      TokensRender(known, fs[1..]);
    }
  }

  /** Trimming an item skips the ", " separator that follows it. */
  lemma TrimSeparator(x: string)
    requires ':' in x
    ensures TrimTrailing(x + ", ") == TrimTrailing(x)
  {
    var y, z := x + ", ", x + ",";
    assert y[..|y| - 1] == z && y[|y| - 1] == ' ';
    assert z[..|z| - 1] == x && z[|z| - 1] == ',';
    assert ':' in z by {
      assert z[Find(x, ':')] == ':';
    }
    assert TrimTrailing(y) == TrimTrailing(z);
  }

  /**
   * The round trip: splitting a row rendered from separable fields gives
   * back, in order, the "LABEL: value" text of each field with its trailing
   * spaces trimmed.
   */
  lemma SplitRender(known: seq<string>, fs: seq<Field>)
    requires forall i :: 0 <= i < |fs| ==> Separable(known, fs[i])
    ensures Split(known, Render(fs)) == seq(|fs|, i requires 0 <= i < |fs| => Recovered(fs[i]))
  {
    TokensRender(known, fs);
    var got := Split(known, Render(fs));
    forall i | 0 <= i < |fs|
      ensures got[i] == Recovered(fs[i])
    {
      ItemColon(fs[i]);
      TrimSeparator(Item(fs[i]));
      SeparatedAt(fs, i);
    }
  }

  /** A well-formed field comes back exactly as its "LABEL: value" text. */
  lemma RecoveredWellFormed(known: seq<string>, f: Field)
    requires WellFormed(known, f)
    ensures Recovered(f) == Item(f)
  {
    var x := Item(f);
    assert x[|x| - 1] == f.value[|f.value| - 1];
  }

  /** A field with an empty value comes back as its label and ':' alone. */
  lemma RecoveredEmpty(name: string)
    ensures Recovered(Field(name, "")) == name + ":"
  {
    var x := Item(Field(name, ""));
    var y := name + ":";
    assert x == y + " ";
    assert x[..|x| - 1] == y && x[|x| - 1] == ' ';
    assert y[|y| - 1] == ':';
    assert ':' in y;
    assert TrimTrailing(x) == TrimTrailing(y);
  }

  /** Splitting a row rendered from well-formed fields gives back each field's text exactly. */
  lemma SplitRenderExact(known: seq<string>, fs: seq<Field>)
    requires forall i :: 0 <= i < |fs| ==> WellFormed(known, fs[i])
    ensures Split(known, Render(fs)) == seq(|fs|, i requires 0 <= i < |fs| => Item(fs[i]))
  {
    SplitRender(known, fs);
    RecoveredAll(known, fs);
  }

  /** Every field of a well-formed row comes back as its text. */
  lemma RecoveredAll(known: seq<string>, fs: seq<Field>)
    requires forall i :: 0 <= i < |fs| ==> WellFormed(known, fs[i])
    ensures seq(|fs|, i requires 0 <= i < |fs| => Recovered(fs[i])) == seq(|fs|, i requires 0 <= i < |fs| => Item(fs[i]))
  {
    var recovered := seq(|fs|, i requires 0 <= i < |fs| => Recovered(fs[i]));
    forall i | 0 <= i < |fs|
      ensures recovered[i] == Item(fs[i])
    {
      RecoveredWellFormed(known, fs[i]);
    }
  }
}
