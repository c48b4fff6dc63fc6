/** The `sort` query parameter of examples/11: comma-separated fields, each with an optional sign. */
module SortDirective {
  import opened Wrappers
  import opened Strings
  import opened Sort

  /** One comma-separated part; blank parts are skipped. */
  function ParsePart(part: string): Option<SortField> {
    var p := Strip(part);
    if p == [] then None
    else if p[0] == '-' then Some(SortField(p[1..], DESC))
    else if p[0] == '+' then Some(SortField(p[1..], ASC))
    else Some(SortField(p, ASC))
  }

  function ParseParts(parts: seq<string>): seq<SortField>
    decreases |parts|
  {
    if parts == [] then []
    else
      var d := ParsePart(parts[|parts| - 1]);
      ParseParts(parts[..|parts| - 1]) + if d.Some? then [d.value] else []
  }

  /** `_parse_sort`. */
  method ParseSort(sort: Option<string>) returns (result: seq<SortField>)
    ensures result == Parsed(sort)
  {
    if sort.None? || sort.value == "" { return []; }
    result := [];
    var parts := Split(sort.value, ',');
    var i := 0;
    while i < |parts|
      invariant 0 <= i <= |parts|
      invariant result == ParseParts(parts[..i])
    {
      var part := Strip(parts[i]);
      assert parts[..i + 1][..i] == parts[..i];
      i := i + 1;
      if part == [] { continue; }
      if part[0] == '-' {
        result := result + [SortField(part[1..], DESC)];
      } else if part[0] == '+' {
        result := result + [SortField(part[1..], ASC)];
      } else {
        result := result + [SortField(part, ASC)];
      }
    }
    assert parts[..i] == parts;
  }

  function Parsed(sort: Option<string>): seq<SortField> {
    if sort.None? || sort.value == "" then [] else ParseParts(Split(sort.value, ','))
  }

  /** What one part means, white space around it aside: nothing, or the field after a sign, or the whole of
      it ascending. */
  lemma PartMeans(before: string, text: string, after: string)
    requires AllSpace(before) && AllSpace(after) && Trimmed(text)
    ensures var d := ParsePart(before + text + after);
      && (text == [] ==> d == None)
      && (text != [] && text[0] == '-' ==> d == Some(SortField(text[1..], DESC)))
      && (text != [] && text[0] == '+' ==> d == Some(SortField(text[1..], ASC)))
      && (text != [] && text[0] != '-' && text[0] != '+' ==> d == Some(SortField(text, ASC)))
  {
    StripOf(before, text, after);
  }

  /** Plain field names joined by commas are those fields, ascending, in that order. */
  lemma {:induction false} UnsignedParts(fields: seq<string>)
    requires forall f :: f in fields ==> Plain(f)
    ensures ParseParts(fields) == Ascending(fields)
    decreases |fields|
  {
    if fields != [] {
      var init, last := fields[..|fields| - 1], fields[|fields| - 1];
      UnsignedParts(init);
      assert Plain(last);
      UnsignedSnoc(init, last);
      assert fields == init + [last];
    }
  }

  lemma UnsignedSnoc(fields: seq<string>, last: string)
    requires Plain(last) && ParseParts(fields) == Ascending(fields)
    ensures ParseParts(fields + [last]) == Ascending(fields + [last])
  {
    PartMeans("", last, "");
    assert "" + last + "" == last;
    ParsePartsSnoc(fields, last, SortField(last, ASC));
  }

  predicate Plain(field: string) {
    field != [] && Trimmed(field) && ',' !in field && field[0] != '-' && field[0] != '+'
  }

  function Ascending(fields: seq<string>): (r: seq<SortField>)
    ensures |r| == |fields|
  {
    seq(|fields|, i requires 0 <= i < |fields| => SortField(fields[i], ASC))
  }

  lemma UnsignedAscends(fields: seq<string>)
    requires fields != [] && forall f :: f in fields ==> Plain(f)
    ensures Parsed(Some(Join(fields, ','))) == Ascending(fields)
    ensures Parsed(None) == [] && Parsed(Some("")) == []
  {
    SplitJoin(fields, ',');
    UnsignedParts(fields);
    assert fields[0] in fields;
    assert Join(fields, ',') != [];
  }

  /** A directive with its explicit sign. */
  function Printed(d: SortField): string {
    [if d.order == DESC then '-' else '+'] + d.field
  }

  function PrintedParts(ds: seq<SortField>): (r: seq<string>)
    ensures |r| == |ds|
  {
    seq(|ds|, i requires 0 <= i < |ds| => Printed(ds[i]))
  }

  function Print(ds: seq<SortField>): string {
    if ds == [] then "" else Join(PrintedParts(ds), ',')
  }

  /** The field names that survive: no comma and no trailing white space. */
  predicate Printable(field: string) {
    ',' !in field && (field != [] ==> !IsSpace(field[|field| - 1]))
  }

  lemma ParsePrinted(d: SortField)
    requires Printable(d.field)
    ensures ParsePart(Printed(d)) == Some(d)
  {
    var p := Printed(d);
    assert !IsSpace(p[0]) && !IsSpace(p[|p| - 1]);
    assert StripLeft(p) == p && StripRight(p) == p;
  }

  lemma {:induction false} ParsePrintedParts(ds: seq<SortField>)
    requires forall d :: d in ds ==> Printable(d.field)
    ensures ParseParts(PrintedParts(ds)) == ds
    decreases |ds|
  {
    if ds != [] {
      var init, last := ds[..|ds| - 1], ds[|ds| - 1];
      ParsePrintedParts(init);
      ParsePrintedSnoc(init, last);
      assert ds == init + [last];
    }
  }

  lemma ParsePrintedSnoc(ds: seq<SortField>, d: SortField)
    requires ParseParts(PrintedParts(ds)) == ds && Printable(d.field)
    ensures ParseParts(PrintedParts(ds + [d])) == ds + [d]
  {
    ParsePrinted(d);
    ParsePartsSnoc(PrintedParts(ds), Printed(d), d);
    PrintedSnoc(ds, d);
  }

  lemma PrintedSnoc(ds: seq<SortField>, d: SortField)
    ensures PrintedParts(ds + [d]) == PrintedParts(ds) + [Printed(d)]
  {
  }

  lemma ParsePartsSnoc(parts: seq<string>, part: string, d: SortField)
    requires ParsePart(part) == Some(d)
    ensures ParseParts(parts + [part]) == ParseParts(parts) + [d]
  {
    assert (parts + [part])[..|parts|] == parts;
  }

  lemma PartIsPrintable(part: string)
    requires ',' !in part
    ensures ParsePart(part).Some? ==> Printable(ParsePart(part).value.field)
  {
    StripLeftKeeps(part, ',');
  }

  lemma {:induction false} PartsArePrintable(parts: seq<string>)
    requires forall p :: p in parts ==> ',' !in p
    ensures forall d :: d in ParseParts(parts) ==> Printable(d.field)
    decreases |parts|
  {
    if parts != [] {
      PartsArePrintable(parts[..|parts| - 1]);
      PartIsPrintable(parts[|parts| - 1]);
    }
  }

  /** Printing a list of directives and parsing the result gives the list back exactly when every field
      name is printable. */
  lemma RoundTripExactly(ds: seq<SortField>)
    ensures Parsed(Some(Print(ds))) == ds <==> forall d :: d in ds ==> Printable(d.field)
  {
    var text := Print(ds);
    if ds != [] && forall d :: d in ds ==> Printable(d.field) {
      var parts := PrintedParts(ds);
      forall p | p in parts
        ensures ',' !in p
      {
        var i :| 0 <= i < |parts| && parts[i] == p;
        assert ds[i] in ds;
      }
      SplitJoin(parts, ',');
      assert text != [] by { assert text == parts[0] || text == parts[0] + [','] + Join(parts[1..], ','); }
      ParsePrintedParts(ds);
    }
    SplitPartsLackSep(text, ',');
    PartsArePrintable(Split(text, ','));
  }

  /** Whatever was parsed can be printed and parsed again without change. */
  lemma ReparseIsIdentity(sort: Option<string>)
    ensures Parsed(Some(Print(Parsed(sort)))) == Parsed(sort)
  {
    if sort.Some? {
      SplitPartsLackSep(sort.value, ',');
      PartsArePrintable(Split(sort.value, ','));
    }
    RoundTripExactly(Parsed(sort));
  }
}
