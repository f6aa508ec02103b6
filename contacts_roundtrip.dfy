/**
 * Export followed by import: a list whose fields are plain cells (no comma,
 * no line break, no surrounding whitespace, no empty variable) decodes back
 * to the same phones, names and variable bindings, one contact per row.
 */
module ContactRoundTrip {
  import opened Optional
  import opened Strings
  import opened Unique
  import opened ContactManager

  /** A cell the decoder reads back unchanged. */
  predicate Plain(s: string) {
    ',' !in s && '\n' !in s && IsTrimmed(s)
  }

  predicate ExportableContact(c: Contact) {
    && Plain(c.phoneNumber)
    && Plain(c.name)
    && forall j :: 0 <= j < |c.variables| ==>
         && c.variables[j].0 != "" && Plain(c.variables[j].0)
         && c.variables[j].1 != "" && Plain(c.variables[j].1)
  }

  predicate Exportable(cs: seq<Contact>) {
    forall i :: 0 <= i < |cs| ==> ExportableContact(cs[i])
  }

  lemma {:induction false} KeysAt(v: Vars)
    ensures |Keys(v)| == |v|
    ensures forall j :: 0 <= j < |v| ==> Keys(v)[j] == v[j].0
  {
    if v != [] {
      KeysAt(v[1..]);
    }
  }

  /** Every key of an exportable contact is a non-empty plain cell. */
  lemma KeyOfExportable(c: Contact, k: string)
    requires ExportableContact(c)
    requires k in Keys(c.variables)
    ensures k != "" && Plain(k)
  {
    KeysAt(c.variables);
    var j :| 0 <= j < |Keys(c.variables)| && Keys(c.variables)[j] == k;
    assert c.variables[j].0 == k;
  }

  /** The variable columns of an exportable list are non-empty plain cells. */
  lemma ExportedKeysPlain(cs: seq<Contact>)
    requires Exportable(cs)
    ensures forall k :: k in VariableKeys(cs) ==> k != "" && Plain(k)
  {
    forall k | k in VariableKeys(cs) ensures k != "" && Plain(k) {
      var i :| 0 <= i < |cs| && k in Keys(cs[i].variables);
      KeyOfExportable(cs[i], k);
    }
  }

  /** The header row is plain when the variable columns are. */
  lemma HeaderRowPlain(keys: seq<string>)
    requires forall k :: k in keys ==> Plain(k)
    ensures forall x :: x in HeaderRow(keys) ==> Plain(x)
  {
    var h := HeaderRow(keys);
    forall x | x in h ensures Plain(x) {
      var i :| 0 <= i < |h| && h[i] == x;
      if i >= 2 {
        assert x == keys[i - 2];
      }
    }
  }

  /** Every cell of an exported row is plain. */
  lemma EncodeRowPlain(c: Contact, keys: seq<string>)
    requires ExportableContact(c)
    requires forall k :: k in keys ==> Plain(k)
    ensures forall x :: x in EncodeRow(c, keys) ==> Plain(x)
  {
    var r := EncodeRow(c, keys);
    EncodeRowAt(c, keys);
    forall x | x in r ensures Plain(x) {
      var i :| 0 <= i < |r| && r[i] == x;
      if i >= 2 {
        var lk := Lookup(c.variables, keys[i - 2]);
        if lk.Some? {
          var j :| 0 <= j < |c.variables| && c.variables[j] == (keys[i - 2], lk.value);
        }
      }
    }
  }

  lemma {:induction false} TrimAllTrimmed(xs: seq<string>)
    requires forall x :: x in xs ==> IsTrimmed(x)
    ensures TrimAll(xs) == xs
  {
    if xs != [] {
      TrimOfTrimmed(xs[0]);
      TrimAllTrimmed(xs[1..]);
    }
  }

  /** Splitting a row of plain cells on ',' and trimming gives the cells back. */
  lemma CellsOfPlainRow(xs: seq<string>)
    requires |xs| >= 1
    requires forall x :: x in xs ==> Plain(x)
    ensures Cells(Join(xs, ',')) == xs
  {
    SplitJoin(xs, ',');
    TrimAllTrimmed(xs);
  }

  /** No row of an export of plain cells holds a line break, and none is blank. */
  lemma {:induction false} RowsWithoutLineBreak(cs: seq<Contact>, keys: seq<string>)
    requires Exportable(cs)
    requires forall k :: k in keys ==> Plain(k)
    ensures forall x :: x in EncodeRows(cs, keys) ==> '\n' !in x && !IsBlank(x)
    decreases |cs|
  {
    if cs != [] {
      EncodeRowAt(cs[0], keys);
      EncodeRowPlain(cs[0], keys);
      JoinHasNoOtherDelimiter(EncodeRow(cs[0], keys), ',', '\n');
      JoinOfManyNotBlank(EncodeRow(cs[0], keys), ',');
      RowsWithoutLineBreak(cs[1..], keys);
    }
  }

  /** The exported text splits on '\n' into the header row and one row per contact. */
  lemma EncodeLines(cs: seq<Contact>, keys: seq<string>)
    requires Exportable(cs)
    requires forall k :: k in keys ==> Plain(k)
    ensures Split(EncodeUnder(cs, keys), '\n') == [Join(HeaderRow(keys), ',')] + EncodeRows(cs, keys)
  {
    HeaderRowPlain(keys);
    JoinHasNoOtherDelimiter(HeaderRow(keys), ',', '\n');
    RowsWithoutLineBreak(cs, keys);
    SplitJoin([Join(HeaderRow(keys), ',')] + EncodeRows(cs, keys), '\n');
  }

  /** A column named in `keys` is the only variable column under that header. */
  lemma OnlyColumn(keys: seq<string>, m: nat)
    requires NoDup(keys) && m < |keys|
    ensures forall c' :: 2 <= c' < |HeaderRow(keys)| && c' != m + 2 ==> HeaderRow(keys)[c'] != keys[m]
  {
    var h := HeaderRow(keys);
    forall c' | 2 <= c' < |h| && c' != m + 2 ensures h[c'] != keys[m] {
      assert h[c'] == keys[c' - 2];
    }
  }

  /** A key outside `keys` heads no variable column. */
  lemma NoColumn(keys: seq<string>, key: string)
    requires key !in keys
    ensures forall c' :: 2 <= c' < |HeaderRow(keys)| ==> HeaderRow(keys)[c'] != key
  {
    var h := HeaderRow(keys);
    forall c' | 2 <= c' < |h| ensures h[c'] != key {
      assert h[c'] == keys[c' - 2];
    }
  }

  /** Column `i + 2` of the header row is headed by the key `keys[i]`. */
  lemma HeaderColumns(keys: seq<string>)
    ensures |HeaderRow(keys)| == |keys| + 2
    ensures forall i :: 0 <= i < |keys| ==> HeaderRow(keys)[i + 2] == keys[i]
  {
  }

  /** A filled column whose header no later column repeats gives that header its value. */
  lemma LastColumnWins(h: seq<string>, values: seq<string>, col: nat, key: string, x: string)
    requires 2 <= col < |h| && col < |values|
    requires h[col] == key && key != ""
    requires values[col] == x && x != ""
    requires forall c' :: col < c' < |h| ==> h[c'] != key
    ensures Lookup(RowVars(h, values, |h|), key) == Some(x)
  {
    assert LastFilled(h, values, col, |h|);
    RowVarsLastWins(h, values, |h|);
  }

  /** A key bound by the contact comes back with its value. */
  lemma BoundKeyOfEncoded(c: Contact, keys: seq<string>, m: nat, x: string)
    requires NoDup(keys) && m < |keys| && keys[m] != ""
    requires Lookup(c.variables, keys[m]) == Some(x) && x != ""
    ensures Lookup(RowVars(HeaderRow(keys), EncodeRow(c, keys), |HeaderRow(keys)|), keys[m]) == Some(x)
  {
    HeaderColumns(keys);
    EncodeRowAt(c, keys);
    OnlyColumn(keys, m);
    LastColumnWins(HeaderRow(keys), EncodeRow(c, keys), m + 2, keys[m], x);
  }

  /** A column the contact leaves empty gives no variable. */
  lemma UnboundKeyOfEncoded(c: Contact, keys: seq<string>, m: nat)
    requires NoDup(keys) && m < |keys|
    requires Lookup(c.variables, keys[m]).None?
    ensures Lookup(RowVars(HeaderRow(keys), EncodeRow(c, keys), |HeaderRow(keys)|), keys[m]).None?
  {
    var h := HeaderRow(keys);
    var values := EncodeRow(c, keys);
    EncodeRowAt(c, keys);
    OnlyColumn(keys, m);
    assert values[m + 2] == "";
    RowVarsKeys(h, values, |h|);
  }

  /** A key without a column gives no variable. */
  lemma NoColumnOfEncoded(c: Contact, keys: seq<string>, key: string)
    requires key !in keys
    ensures Lookup(RowVars(HeaderRow(keys), EncodeRow(c, keys), |HeaderRow(keys)|), key).None?
  {
    NoColumn(keys, key);
    RowVarsKeys(HeaderRow(keys), EncodeRow(c, keys), |HeaderRow(keys)|);
  }

  /** The binding of one key survives the export and the import of a row. */
  lemma BindingOfEncoded(c: Contact, keys: seq<string>, key: string)
    requires NoDup(keys)
    requires forall k :: k in keys ==> k != ""
    requires forall k :: k in Keys(c.variables) ==> k in keys
    requires forall j :: 0 <= j < |c.variables| ==> c.variables[j].1 != ""
    ensures Lookup(RowVars(HeaderRow(keys), EncodeRow(c, keys), |HeaderRow(keys)|), key) == Lookup(c.variables, key)
  {
    var lk := Lookup(c.variables, key);
    if key in keys {
      var m :| 0 <= m < |keys| && keys[m] == key;
      if lk.Some? {
        var j :| 0 <= j < |c.variables| && c.variables[j] == (key, lk.value);
        BoundKeyOfEncoded(c, keys, m, lk.value);
      } else {
        UnboundKeyOfEncoded(c, keys, m);
      }
    } else {
      NoColumnOfEncoded(c, keys, key);
    }
  }

  /** The variables decoded from an exported row bind every key as the contact did. */
  lemma RowVarsOfEncoded(c: Contact, keys: seq<string>)
    requires NoDup(keys)
    requires forall k :: k in keys ==> k != ""
    requires forall k :: k in Keys(c.variables) ==> k in keys
    requires forall j :: 0 <= j < |c.variables| ==> c.variables[j].1 != ""
    ensures SameBindings(RowVars(HeaderRow(keys), EncodeRow(c, keys), |HeaderRow(keys)|), c.variables)
  {
    forall key {
      BindingOfEncoded(c, keys, key);
    }
  }

  /** One exported row decodes to a contact with the same phone, name and bindings. */
  lemma DecodeRowOfEncoded(c: Contact, keys: seq<string>, n: nat, stamp: nat)
    requires ExportableContact(c)
    requires NoDup(keys)
    requires forall k :: k in keys ==> k != "" && Plain(k)
    requires forall k :: k in Keys(c.variables) ==> k in keys
    ensures var d := DecodeRow(HeaderRow(keys), Join(EncodeRow(c, keys), ','), n, stamp);
      && d.id == ContactId(stamp, n)
      && d.phoneNumber == c.phoneNumber
      && d.name == c.name
      && SameBindings(d.variables, c.variables)
  {
    EncodeRowAt(c, keys);
    EncodeRowPlain(c, keys);
    CellsOfPlainRow(EncodeRow(c, keys));
    RowVarsOfEncoded(c, keys);
  }

  /** When no line after the header is blank, every one of them yields a contact, in order. */
  lemma {:induction false} AllLinesChosen(lines: seq<string>, i: nat)
    requires 1 <= i <= |lines|
    requires forall n :: 1 <= n < |lines| ==> !IsBlank(lines[n])
    ensures |NonBlankLines(lines, i)| == i - 1
    ensures forall k :: 0 <= k < i - 1 ==> NonBlankLines(lines, i)[k] == k + 1
    decreases i
  {
    if i > 1 {
      AllLinesChosen(lines, i - 1);
    }
  }

  /** The lines of an exported text: the header row, then each contact's row, none of them blank. */
  lemma EncodedLines(cs: seq<Contact>, keys: seq<string>)
    requires Exportable(cs)
    requires forall k :: k in keys ==> Plain(k)
    ensures var lines := Split(EncodeUnder(cs, keys), '\n');
      && |lines| == |cs| + 1
      && Cells(lines[0]) == HeaderRow(keys)
      && (forall k :: 0 <= k < |cs| ==> lines[k + 1] == Join(EncodeRow(cs[k], keys), ','))
      && (forall n :: 1 <= n < |lines| ==> !IsBlank(lines[n]))
  {
    var rows := EncodeRows(cs, keys);
    var lines := Split(EncodeUnder(cs, keys), '\n');
    EncodeLines(cs, keys);
    assert lines[0] == Join(HeaderRow(keys), ',') && lines[1..] == rows;
    HeaderRowPlain(keys);
    CellsOfPlainRow(HeaderRow(keys));
    RowsWithoutLineBreak(cs, keys);
    forall n | 1 <= n < |lines| ensures !IsBlank(lines[n]) {
      assert lines[n] == rows[n - 1];
    }
  }

  /** Decoding the lines 1, 2, 3, ... in turn yields their contacts in that order. */
  lemma RowsOfConsecutive(headers: seq<string>, lines: seq<string>, stamp: nat, ns: seq<nat>)
    requires forall j :: 0 <= j < |ns| ==> ns[j] == j + 1 && ns[j] < |lines|
    ensures forall k :: 0 <= k < |ns| ==>
      RowsOf(headers, lines, stamp, ns)[k] == DecodeRow(headers, lines[k + 1], k + 1, stamp)
  {
    RowsOfAt(headers, lines, stamp, ns);
  }

  /** When no line after the header is blank, each of them yields the contact of the same rank. */
  lemma RowsOfAllLines(headers: seq<string>, lines: seq<string>, stamp: nat)
    requires 1 <= |lines|
    requires forall n :: 1 <= n < |lines| ==> !IsBlank(lines[n])
    ensures var r := RowsOf(headers, lines, stamp, NonBlankLines(lines, |lines|));
      && |r| == |lines| - 1
      && forall k :: 0 <= k < |r| ==> r[k] == DecodeRow(headers, lines[k + 1], k + 1, stamp)
  {
    AllLinesChosen(lines, |lines|);
    RowsOfConsecutive(headers, lines, stamp, NonBlankLines(lines, |lines|));
  }

  /** A text with no blank line decodes each line after the header, in order. */
  lemma DecodedWithoutBlankLines(csv: string, stamp: nat)
    requires forall n :: 1 <= n < |Split(csv, '\n')| ==> !IsBlank(Split(csv, '\n')[n])
    ensures var lines, d := Split(csv, '\n'), Decoded(csv, stamp);
      && |d| == |lines| - 1
      && forall k :: 0 <= k < |d| ==> d[k] == DecodeRow(Cells(lines[0]), lines[k + 1], k + 1, stamp)
  {
    var lines := Split(csv, '\n');
    RowsOfAllLines(Cells(lines[0]), lines, stamp);
  }

  /**
   * Importing an export gives the contacts back: one per row, in order, with
   * the same phone, name and variable bindings, and the row number in the id.
   */
  lemma DecodeEncode(cs: seq<Contact>, stamp: nat)
    requires Exportable(cs)
    ensures var d := Decoded(Encode(cs), stamp);
      && |d| == |cs|
      && forall k :: 0 <= k < |cs| ==>
           && d[k].id == ContactId(stamp, k + 1)
           && d[k].phoneNumber == cs[k].phoneNumber
           && d[k].name == cs[k].name
           && SameBindings(d[k].variables, cs[k].variables)
  {
    var keys := VariableKeys(cs);
    ExportedKeysPlain(cs);
    assert Encode(cs) == EncodeUnder(cs, keys);
    EncodedLines(cs, keys);
    DecodedWithoutBlankLines(Encode(cs), stamp);
    forall k | 0 <= k < |cs|
      ensures var d := Decoded(Encode(cs), stamp);
        && d[k].id == ContactId(stamp, k + 1)
        && d[k].phoneNumber == cs[k].phoneNumber && d[k].name == cs[k].name
        && SameBindings(d[k].variables, cs[k].variables)
    {
      DecodeRowOfEncoded(cs[k], keys, k + 1, stamp);
    }
  }
}
