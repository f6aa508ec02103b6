/**
 * The contact manager: a comma/newline decoder for imported files (no
 * quoting, cells trimmed, blank lines skipped, empty cells omitted), the
 * matching encoder for export, the search filter, the statistics and the
 * contact list that import appends to and "Clear All" empties.
 */
module ContactManager {
  import opened Optional
  import opened Strings
  import opened Unique

  /** `contact-${Date.now()}-${i}`: the import's time stamp and the line the contact came from. */
  datatype ContactId = ContactId(stamp: nat, line: nat)

  /** A contact's variables as a JavaScript object holds them: key/value pairs in insertion order. */
  type Vars = seq<(string, string)>

  datatype Contact = Contact(id: ContactId, phoneNumber: string, name: string, variables: Vars)

  // ---------------------------------------------------------------------------
  // Variables as an ordered record

  function Keys(v: Vars): seq<string> {
    if v == [] then [] else [v[0].0] + Keys(v[1..])
  }

  predicate UniqueKeys(v: Vars) {
    NoDup(Keys(v))
  }

  /** `v[k]`, or `None` for `undefined`. */
  function Lookup(v: Vars, k: string): (r: Option<string>)
    ensures r.None? <==> k !in Keys(v)
    ensures r.Some? ==> (k, r.value) in v
  {
    if v == [] then None
    else if v[0].0 == k then Some(v[0].1)
    else Lookup(v[1..], k)
  }

  /** `v[k] || ''`. */
  function ValueOr(v: Vars, k: string): string {
    var r := Lookup(v, k);
    if r.Some? then r.value else ""
  }

  /** `v[k] = x`: an existing key keeps its place and takes the new value; a new key goes last. */
  function Put(v: Vars, k: string, x: string): (r: Vars)
    ensures Lookup(r, k) == Some(x)
  {
    if v == [] then [(k, x)]
    else if v[0].0 == k then [(k, x)] + v[1..]
    else [v[0]] + Put(v[1..], k, x)
  }

  /** Put leaves every other key's binding alone. */
  lemma {:induction false} PutOther(v: Vars, k: string, x: string, k': string)
    requires k' != k
    ensures Lookup(Put(v, k, x), k') == Lookup(v, k')
  {
    if v != [] && v[0].0 != k {
      PutOther(v[1..], k, x, k');
    }
  }

  /** Put keeps the key order and adds a new key last. */
  lemma {:induction false} PutKeys(v: Vars, k: string, x: string)
    ensures Keys(Put(v, k, x)) == if k in Keys(v) then Keys(v) else Keys(v) + [k]
  {
    if v == [] {
    } else if v[0].0 == k {
      assert Put(v, k, x)[1..] == v[1..];
    } else {
      PutKeys(v[1..], k, x);
      var p := Put(v[1..], k, x);
      assert Put(v, k, x) == [v[0]] + p && ([v[0]] + p)[1..] == p;
      assert k in Keys(v) <==> k in Keys(v[1..]);
    }
  }

  /** Put adds no pair but the new one. */
  lemma {:induction false} PutPairs(v: Vars, k: string, x: string)
    ensures forall i :: 0 <= i < |Put(v, k, x)| ==> Put(v, k, x)[i] in v || Put(v, k, x)[i] == (k, x)
  {
    if v != [] && v[0].0 != k {
      PutPairs(v[1..], k, x);
    }
  }

  /** Two records that bind every key alike. */
  ghost predicate SameBindings(a: Vars, b: Vars) {
    forall k :: Lookup(a, k) == Lookup(b, k)
  }

  // ---------------------------------------------------------------------------
  // Decoding

  /** `values[i] || ''`. */
  function Cell(values: seq<string>, i: nat): string {
    if i < |values| then values[i] else ""
  }

  /** `.map(v => v.trim())`. */
  function TrimAll(xs: seq<string>): seq<string> {
    if xs == [] then [] else [Trim(xs[0])] + TrimAll(xs[1..])
  }

  lemma {:induction false} TrimAllAt(xs: seq<string>)
    ensures |TrimAll(xs)| == |xs|
    ensures forall i :: 0 <= i < |xs| ==> TrimAll(xs)[i] == Trim(xs[i])
  {
    if xs != [] {
      TrimAllAt(xs[1..]);
    }
  }

  /** `line.split(',').map(v => v.trim())`. */
  function Cells(line: string): seq<string> {
    TrimAll(Split(line, ','))
  }

  /** Column `c` of a row yields a variable: both its header and its cell are non-empty. */
  predicate Filled(headers: seq<string>, values: seq<string>, c: nat)
    requires c < |headers|
  {
    headers[c] != "" && Cell(values, c) != ""
  }

  /** Column `c` is the last filled column before `j` under its header, so its value is the one kept. */
  predicate LastFilled(headers: seq<string>, values: seq<string>, c: nat, j: nat)
    requires c < j <= |headers|
  {
    Filled(headers, values, c) &&
    forall c' :: c < c' < j && headers[c'] == headers[c] ==> !Filled(headers, values, c')
  }

  /** The variables a row gets from columns 2 .. j-1, taken left to right. */
  function RowVars(headers: seq<string>, values: seq<string>, j: nat): Vars
    requires j <= |headers| || j <= 2
    decreases j
  {
    if j <= 2 then []
    else
      var v := RowVars(headers, values, j - 1);
      if Filled(headers, values, j - 1) then Put(v, headers[j - 1], values[j - 1]) else v
  }

  /** A row's keys are exactly the headers of its filled columns, each once. */
  lemma {:induction false} RowVarsKeys(headers: seq<string>, values: seq<string>, j: nat)
    requires j <= |headers| || j <= 2
    ensures UniqueKeys(RowVars(headers, values, j))
    ensures forall k :: k in Keys(RowVars(headers, values, j)) <==>
      exists c :: 2 <= c < j && headers[c] == k && Filled(headers, values, c)
    decreases j
  {
    if j > 2 {
      var v := RowVars(headers, values, j - 1);
      RowVarsKeys(headers, values, j - 1);
      if Filled(headers, values, j - 1) {
        PutKeys(v, headers[j - 1], values[j - 1]);
      }
    }
  }

  /** No variable is stored with an empty value. */
  lemma {:induction false} RowVarsNonEmpty(headers: seq<string>, values: seq<string>, j: nat)
    requires j <= |headers| || j <= 2
    ensures forall i :: 0 <= i < |RowVars(headers, values, j)| ==> RowVars(headers, values, j)[i].1 != ""
    decreases j
  {
    if j > 2 {
      var v := RowVars(headers, values, j - 1);
      RowVarsNonEmpty(headers, values, j - 1);
      if Filled(headers, values, j - 1) {
        PutPairs(v, headers[j - 1], values[j - 1]);
      }
    }
  }

  /** Under a repeated header the last filled column wins. */
  lemma {:induction false} RowVarsLastWins(headers: seq<string>, values: seq<string>, j: nat)
    requires j <= |headers| || j <= 2
    ensures forall c :: 2 <= c < j && LastFilled(headers, values, c, j) ==>
      Lookup(RowVars(headers, values, j), headers[c]) == Some(values[c])
    decreases j
  {
    if j > 2 {
      RowVarsLastWins(headers, values, j - 1);
      forall c | 2 <= c < j && LastFilled(headers, values, c, j)
        ensures Lookup(RowVars(headers, values, j), headers[c]) == Some(values[c])
      {
        if c < j - 1 {
          assert LastFilled(headers, values, c, j - 1);
          if Filled(headers, values, j - 1) {
            PutOther(RowVars(headers, values, j - 1), headers[j - 1], values[j - 1], headers[c]);
          }
        }
      }
    }
  }

  /** One non-blank line `i` of the input: phone in cell 0, name in cell 1, variables from the rest. */
  function DecodeRow(headers: seq<string>, line: string, i: nat, stamp: nat): Contact {
    var values := Cells(line);
    Contact(ContactId(stamp, i), Cell(values, 0), Cell(values, 1), RowVars(headers, values, |headers|))
  }

  /**
   * A decoded line carries its number, a trimmed phone and name, and
   * variables only under the non-empty headers of its filled cells, none empty.
   */
  lemma DecodeRowFields(headers: seq<string>, line: string, i: nat, stamp: nat)
    ensures var c := DecodeRow(headers, line, i, stamp);
      && c.id == ContactId(stamp, i)
      && IsTrimmed(c.phoneNumber) && IsTrimmed(c.name)
      && (forall k :: k in Keys(c.variables) ==> k != "" && k in headers[2..])
      && (forall p :: p in c.variables ==> p.1 != "")
  {
    var values := Cells(line);
    var v := RowVars(headers, values, |headers|);
    TrimAllAt(Split(line, ','));
    RowVarsKeys(headers, values, |headers|);
    RowVarsNonEmpty(headers, values, |headers|);
    forall k | k in Keys(v) ensures k != "" && k in headers[2..] {
      var c :| 2 <= c < |headers| && headers[c] == k && Filled(headers, values, c);
      assert headers[2..][c - 2] == k;
    }
  }

  /** The numbers of the lines among 1 .. i-1 that yield a contact: the non-blank ones. */
  function NonBlankLines(lines: seq<string>, i: nat): (ns: seq<nat>)
    requires i <= |lines|
    ensures forall k :: 0 <= k < |ns| ==> 1 <= ns[k] < i
    ensures |ns| < i || ns == []
    decreases i
  {
    if i <= 1 then []
    else
      var ns := NonBlankLines(lines, i - 1);
      if IsBlank(lines[i - 1]) then ns else ns + [i - 1]
  }

  /** The chosen lines are non-blank lines before `i`, in increasing order, and none is missed. */
  lemma {:induction false} NonBlankLinesSpec(lines: seq<string>, i: nat)
    requires i <= |lines|
    ensures var ns := NonBlankLines(lines, i);
      && (forall k :: 0 <= k < |ns| ==> 1 <= ns[k] < i && !IsBlank(lines[ns[k]]))
      && (forall k, l :: 0 <= k < l < |ns| ==> ns[k] < ns[l])
      && (forall n :: 1 <= n < i && !IsBlank(lines[n]) ==> n in ns)
    decreases i
  {
    if i > 1 {
      NonBlankLinesSpec(lines, i - 1);
    }
  }

  /** The contacts decoded from the given lines, one per line number, in that order. */
  function RowsOf(headers: seq<string>, lines: seq<string>, stamp: nat, ns: seq<nat>): (r: seq<Contact>)
    requires forall k :: 0 <= k < |ns| ==> ns[k] < |lines|
    ensures |r| == |ns|
    decreases |ns|
  {
    if ns == [] then []
    else RowsOf(headers, lines, stamp, ns[..|ns| - 1]) + [DecodeRow(headers, lines[ns[|ns| - 1]], ns[|ns| - 1], stamp)]
  }

  /** Decoding one more line appends its contact. */
  lemma RowsOfSnoc(headers: seq<string>, lines: seq<string>, stamp: nat, ns: seq<nat>, n: nat)
    requires forall k :: 0 <= k < |ns| ==> ns[k] < |lines|
    requires n < |lines|
    ensures RowsOf(headers, lines, stamp, ns + [n]) == RowsOf(headers, lines, stamp, ns) + [DecodeRow(headers, lines[n], n, stamp)]
  {
    assert (ns + [n])[..|ns|] == ns;
  }

  lemma {:induction false} RowsOfAt(headers: seq<string>, lines: seq<string>, stamp: nat, ns: seq<nat>)
    requires forall k :: 0 <= k < |ns| ==> ns[k] < |lines|
    ensures forall k :: 0 <= k < |ns| ==>
      RowsOf(headers, lines, stamp, ns)[k] == DecodeRow(headers, lines[ns[k]], ns[k], stamp)
    decreases |ns|
  {
    if ns != [] {
      RowsOfAt(headers, lines, stamp, ns[..|ns| - 1]);
    }
  }

  /**
   * What the `reader.onload` handler decodes from a file's text: line 0
   * holds the headers, and every later non-blank line gives one contact.
   */
  function Decoded(csv: string, stamp: nat): (r: seq<Contact>)
    ensures |r| < |Split(csv, '\n')|
  {
    var lines := Split(csv, '\n');
    RowsOf(Cells(lines[0]), lines, stamp, NonBlankLines(lines, |lines|))
  }

  /** Each decoded contact is its line decoded, and carries that non-blank line's number in its id, in line order. */
  lemma DecodedSound(csv: string, stamp: nat)
    ensures var lines, r := Split(csv, '\n'), Decoded(csv, stamp);
      && (forall k :: 0 <= k < |r| ==>
           && 1 <= r[k].id.line < |lines|
           && !IsBlank(lines[r[k].id.line])
           && r[k] == DecodeRow(Cells(lines[0]), lines[r[k].id.line], r[k].id.line, stamp))
      && (forall k, l :: 0 <= k < l < |r| ==> r[k].id.line < r[l].id.line)
  {
    var lines := Split(csv, '\n');
    var ns := NonBlankLines(lines, |lines|);
    NonBlankLinesSpec(lines, |lines|);
    RowsOfIds(Cells(lines[0]), lines, stamp, ns);
    assert Decoded(csv, stamp) == RowsOf(Cells(lines[0]), lines, stamp, ns);
  }

  /** Rows decoded from increasing non-blank line numbers carry those numbers, in order. */
  lemma RowsOfIds(headers: seq<string>, lines: seq<string>, stamp: nat, ns: seq<nat>)
    requires forall k :: 0 <= k < |ns| ==> 1 <= ns[k] < |lines| && !IsBlank(lines[ns[k]])
    requires forall k, l :: 0 <= k < l < |ns| ==> ns[k] < ns[l]
    ensures var r := RowsOf(headers, lines, stamp, ns);
      && (forall k :: 0 <= k < |r| ==>
           && 1 <= r[k].id.line < |lines|
           && !IsBlank(lines[r[k].id.line])
           && r[k] == DecodeRow(headers, lines[r[k].id.line], r[k].id.line, stamp))
      && (forall k, l :: 0 <= k < l < |r| ==> r[k].id.line < r[l].id.line)
  {
    var r := RowsOf(headers, lines, stamp, ns);
    RowsOfAt(headers, lines, stamp, ns);
    assert forall k :: 0 <= k < |r| ==> r[k].id.line == ns[k];
  }

  /** Every non-blank line after the header yields a contact. */
  lemma DecodedComplete(csv: string, stamp: nat)
    ensures var lines, r := Split(csv, '\n'), Decoded(csv, stamp);
      forall n :: 1 <= n < |lines| && !IsBlank(lines[n]) ==> exists k :: 0 <= k < |r| && r[k].id.line == n
  {
    var lines := Split(csv, '\n');
    var ns := NonBlankLines(lines, |lines|);
    var r := Decoded(csv, stamp);
    NonBlankLinesSpec(lines, |lines|);
    RowsOfAt(Cells(lines[0]), lines, stamp, ns);
    forall n | 1 <= n < |lines| && !IsBlank(lines[n])
      ensures exists k :: 0 <= k < |r| && r[k].id.line == n
    {
      var k :| 0 <= k < |ns| && ns[k] == n;
      assert r[k].id.line == n;
    }
  }

  /** The body of the handler's loop for one non-blank line. */
  method DecodeLine(headers: seq<string>, line: string, i: nat, stamp: nat) returns (c: Contact)
    ensures c == DecodeRow(headers, line, i, stamp)
  {
    var values := Cells(line);
    var vars := CollectVars(headers, values);
    c := Contact(ContactId(stamp, i), Cell(values, 0), Cell(values, 1), vars);
  }

  /** The inner loop of the handler: a row's variables from columns 2 onwards. */
  method CollectVars(headers: seq<string>, values: seq<string>) returns (vars: Vars)
    ensures vars == RowVars(headers, values, |headers|)
  {
    vars := [];
    var j := 2;
    while j < |headers|
      invariant 2 <= j && (j <= |headers| || j == 2)
      invariant vars == RowVars(headers, values, j)
    {
      if headers[j] != "" && j < |values| && values[j] != "" {
        vars := Put(vars, headers[j], values[j]);
      }
      j := j + 1;
    }
  }

  /** A non-blank line appends its contact to those of the lines before it. */
  lemma DecodeNextLine(headers: seq<string>, lines: seq<string>, stamp: nat, i: nat, c: Contact)
    requires 1 <= i < |lines| && !IsBlank(lines[i])
    requires c == DecodeRow(headers, lines[i], i, stamp)
    ensures RowsOf(headers, lines, stamp, NonBlankLines(lines, i + 1)) == RowsOf(headers, lines, stamp, NonBlankLines(lines, i)) + [c]
  {
    var ns := NonBlankLines(lines, i);
    assert NonBlankLines(lines, i + 1) == ns + [i];
    RowsOfSnoc(headers, lines, stamp, ns, i);
  }

  /** The `reader.onload` handler: split into lines, read the headers, decode the rest. */
  method Decode(csv: string, stamp: nat) returns (contacts: seq<Contact>)
    ensures contacts == Decoded(csv, stamp)
  {
    var lines := Split(csv, '\n');
    var headers := Cells(lines[0]);
    contacts := DecodeBody(headers, lines, stamp);
  }

  /** The handler's loop over the lines after the header. */
  method DecodeBody(headers: seq<string>, lines: seq<string>, stamp: nat) returns (contacts: seq<Contact>)
    ensures contacts == RowsOf(headers, lines, stamp, NonBlankLines(lines, |lines|))
  {
    contacts := [];
    if |lines| == 0 {
      return;
    }
    var i := 1;
    while i < |lines|
      invariant 1 <= i <= |lines|
      invariant contacts == RowsOf(headers, lines, stamp, NonBlankLines(lines, i))
    {
      if Trim(lines[i]) != "" {
        var c := DecodeLine(headers, lines[i], i, stamp);
        DecodeNextLine(headers, lines, stamp, i, c);
        contacts := contacts + [c];
      } else {
        assert NonBlankLines(lines, i + 1) == NonBlankLines(lines, i);
      }
      i := i + 1;
    }
  }

  /** A file with only a header line, or an empty one, yields no contacts. */
  lemma DecodeHeaderOnly(csv: string, stamp: nat)
    requires '\n' !in csv
    ensures Decoded(csv, stamp) == []
  {
    SplitNoDelimiter(csv, '\n');
  }

  // ---------------------------------------------------------------------------
  // Encoding

  /** `contacts.flatMap(c => Object.keys(c.variables))`. */
  function AllKeys(cs: seq<Contact>): (r: seq<string>)
    ensures forall i, k :: 0 <= i < |cs| && k in Keys(cs[i].variables) ==> k in r
    ensures forall k :: k in r ==> exists i :: 0 <= i < |cs| && k in Keys(cs[i].variables)
  {
    if cs == [] then []
    else
      var rest := AllKeys(cs[1..]);
      assert forall i :: 1 <= i < |cs| ==> cs[i] == cs[1..][i - 1];
      Keys(cs[0].variables) + rest
  }

  /** The export's variable columns: every key of every contact, once, in first-seen order. */
  function VariableKeys(cs: seq<Contact>): (r: seq<string>)
    ensures NoDup(r)
    ensures forall i, k :: 0 <= i < |cs| && k in Keys(cs[i].variables) ==> k in r
    ensures forall k :: k in r ==> exists i :: 0 <= i < |cs| && k in Keys(cs[i].variables)
    ensures forall i, j :: 0 <= i < j < |r| ==>
      r[i] in AllKeys(cs) && r[j] in AllKeys(cs) && FirstIndex(AllKeys(cs), r[i]) < FirstIndex(AllKeys(cs), r[j])
  {
    var xs := AllKeys(cs);
    var r := Dedup(xs);
    DedupOrder(xs);
    assert forall k :: k in xs ==> k in r by {
      forall k | k in xs ensures k in r {
        var i :| 0 <= i < |xs| && xs[i] == k;
      }
    }
    r
  }

  function HeaderRow(keys: seq<string>): seq<string> {
    ["Phone Number", "Name"] + keys
  }

  /** One contact's cells: phone, name, then its value or '' under each key. */
  function EncodeRow(c: Contact, keys: seq<string>): seq<string> {
    [c.phoneNumber, c.name] + ValuesUnder(c.variables, keys)
  }

  /** The value bound to each key in turn, '' for a key the record leaves unbound. */
  function ValuesUnder(v: Vars, keys: seq<string>): (r: seq<string>)
    ensures |r| == |keys|
  {
    if keys == [] then [] else [ValueOr(v, keys[0])] + ValuesUnder(v, keys[1..])
  }

  /** A row holds the phone, the name, then under each key its value or ''. */
  lemma {:induction false} EncodeRowAt(c: Contact, keys: seq<string>)
    ensures var r := EncodeRow(c, keys);
      && |r| == |keys| + 2
      && r[0] == c.phoneNumber && r[1] == c.name
      && forall i :: 0 <= i < |keys| ==> r[i + 2] == ValueOr(c.variables, keys[i])
    decreases |keys|
  {
    if keys != [] {
      EncodeRowAt(c, keys[1..]);
    }
  }

  function EncodeRows(cs: seq<Contact>, keys: seq<string>): (r: seq<string>)
    ensures |r| == |cs|
    ensures forall i :: 0 <= i < |cs| ==> r[i] == Join(EncodeRow(cs[i], keys), ',')
  {
    if cs == [] then [] else [Join(EncodeRow(cs[0], keys), ',')] + EncodeRows(cs[1..], keys)
  }

  /** The text exported under the given variable columns: the header row, then one row per contact; cells joined by ',' and rows by '\n'. */
  function EncodeUnder(cs: seq<Contact>, keys: seq<string>): string {
    Join([Join(HeaderRow(keys), ',')] + EncodeRows(cs, keys), '\n')
  }

  /** The exported text, whose columns are the contacts' variable keys; it opens with the header row. */
  function Encode(cs: seq<Contact>): (r: string)
    ensures Join(HeaderRow(VariableKeys(cs)), ',') <= r
  {
    EncodeUnder(cs, VariableKeys(cs))
  }

  /** `exportContacts`: refused for an empty list. */
  function ExportText(cs: seq<Contact>): (r: Option<string>)
    ensures r.None? <==> cs == []
  {
    if cs == [] then None else Some(Encode(cs))
  }

  // ---------------------------------------------------------------------------
  // Search and statistics

  /** The case-insensitive name match or the verbatim phone match of `filteredContacts`. */
  predicate Matches(c: Contact, term: string)
    ensures term == "" ==> Matches(c, term)
    ensures Matches(c, term) <==>
      (exists i :: OccursAt(Lower(c.name), Lower(term), i)) || (exists i :: OccursAt(c.phoneNumber, term, i))
  {
    ContainsAt(Lower(c.name), Lower(term));
    ContainsAt(c.phoneNumber, term);
    Contains(Lower(c.name), Lower(term)) || Contains(c.phoneNumber, term)
  }

  /** `filteredContacts`. */
  function FilterContacts(cs: seq<Contact>, term: string): (r: seq<Contact>)
    ensures |r| <= |cs|
    ensures forall i :: 0 <= i < |r| ==> r[i] in cs && Matches(r[i], term)
    ensures forall i :: 0 <= i < |cs| && Matches(cs[i], term) ==> cs[i] in r
  {
    if cs == [] then []
    else
      var rest := FilterContacts(cs[1..], term);
      if Matches(cs[0], term) then [cs[0]] + rest else rest
  }

  /** Filtering keeps the order of the list: it distributes over concatenation. */
  lemma {:induction false} FilterDistributes(a: seq<Contact>, b: seq<Contact>, term: string)
    ensures FilterContacts(a + b, term) == FilterContacts(a, term) + FilterContacts(b, term)
    decreases |a|
  {
    if a == [] {
      assert a + b == b;
    } else {
      assert (a + b)[1..] == a[1..] + b;
      FilterDistributes(a[1..], b, term);
    }
  }

  /** An empty search term shows every contact. */
  lemma {:induction false} FilterEmptyTerm(cs: seq<Contact>)
    ensures FilterContacts(cs, "") == cs
  {
    if cs != [] {
      assert Matches(cs[0], "") by { assert "" <= Lower(cs[0].name); }
      FilterEmptyTerm(cs[1..]);
    }
  }

  /** "Valid Numbers": contacts whose phone has more than 8 characters. */
  function CountValidNumbers(cs: seq<Contact>): (n: nat)
    ensures n <= |cs|
    ensures n == |cs| <==> forall i :: 0 <= i < |cs| ==> |cs[i].phoneNumber| > 8
  {
    if cs == [] then 0
    else (if |cs[0].phoneNumber| > 8 then 1 else 0) + CountValidNumbers(cs[1..])
  }

  /** "With Names": contacts whose name is non-empty. */
  function CountWithNames(cs: seq<Contact>): (n: nat)
    ensures n <= |cs|
    ensures n == |cs| <==> forall i :: 0 <= i < |cs| ==> cs[i].name != ""
  {
    if cs == [] then 0
    else (if cs[0].name != "" then 1 else 0) + CountWithNames(cs[1..])
  }

  /** The statistics of an appended list are the sums of the parts. */
  lemma {:induction false} CountsAdd(a: seq<Contact>, b: seq<Contact>)
    ensures CountValidNumbers(a + b) == CountValidNumbers(a) + CountValidNumbers(b)
    ensures CountWithNames(a + b) == CountWithNames(a) + CountWithNames(b)
    decreases |a|
  {
    if a == [] {
      assert a + b == b;
    } else {
      assert (a + b)[1..] == a[1..] + b;
      CountsAdd(a[1..], b);
    }
  }

  // ---------------------------------------------------------------------------
  // The contact list

  class ContactBook {
    var contacts: seq<Contact>
    var searchTerm: string

    constructor ()
      ensures contacts == [] && searchTerm == ""
    {
      contacts := [];
      searchTerm := "";
    }

    /** A file's contacts are appended after the existing ones, in order. */
    method Import(csv: string, stamp: nat)
      modifies this
      ensures contacts == old(contacts) + Decoded(csv, stamp)
      ensures searchTerm == old(searchTerm)
    {
      var decoded := Decode(csv, stamp);
      contacts := contacts + decoded;
    }

    /** "Clear All". */
    method ClearAll()
      modifies this
      ensures contacts == [] && searchTerm == old(searchTerm)
    {
      contacts := [];
    }

    method Search(term: string)
      modifies this
      ensures searchTerm == term && contacts == old(contacts)
    {
      searchTerm := term;
    }

    /** The list as shown: the contacts matching the search term. */
    function Visible(): (r: seq<Contact>)
      reads this
      ensures forall i :: 0 <= i < |r| ==> r[i] in contacts && Matches(r[i], searchTerm)
      ensures forall i :: 0 <= i < |contacts| && Matches(contacts[i], searchTerm) ==> contacts[i] in r
    {
      FilterContacts(contacts, searchTerm)
    }

    method Export() returns (text: Option<string>)
      ensures text == ExportText(contacts)
    {
      text := ExportText(contacts);
    }
  }
}
