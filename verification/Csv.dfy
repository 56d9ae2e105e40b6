/** One row of comma-separated fields (section 2 of RFC 4180). The parser also accepts a quotation
    mark inside an unquoted field as a literal character. It is one loop with a flag for being
    inside quotation marks; the specification reads one field after the other. A row that was
    written with any mixture of quoted and plain fields reads back, and the fields that may stay
    unquoted are characterised. */
module Csv {

  /** The fields from a position on, given the field begun before it. */
  function Fields(s: string, field: string, inQuotes: bool): (r: seq<string>)
    ensures r != []
    decreases |s|
  {
    if s == "" then [field]
    else if s[0] == '"' then
      if !inQuotes then
        if field != "" then Fields(s[1..], field + ['"'], false) else Fields(s[1..], field, true)
      else if |s| > 1 && s[1] == '"' then Fields(s[2..], field + ['"'], true)
      else Fields(s[1..], field, false)
    else if s[0] == ',' && !inQuotes then [field] + Fields(s[1..], "", false)
    else Fields(s[1..], field + [s[0]], inQuotes)
  }

  function Parse(s: string): seq<string> { Fields(s, "", false) }

  // ----- writing a row -----

  function Doubled(f: string): string {
    if f == "" then "" else (if f[0] == '"' then "\"\"" else [f[0]]) + Doubled(f[1..])
  }

  /** The two ways to write a field. */
  datatype Style = Quoted | Plain

  function Written(f: string, style: Style): string {
    if style == Quoted then "\"" + Doubled(f) + "\"" else f
  }

  /** A field that may go unquoted. */
  predicate PlainField(f: string) { ',' !in f && (f != "" ==> f[0] != '"') }

  function Row(fields: seq<string>, styles: seq<Style>): string
    requires fields != [] && |fields| == |styles|
  {
    if |fields| == 1 then Written(fields[0], styles[0])
    else Written(fields[0], styles[0]) + "," + Row(fields[1..], styles[1..])
  }

  // ----- reading it back -----

  lemma FieldsStep(c: char, rest: string, field: string, inQuotes: bool)
    requires c != '"' && (c != ',' || inQuotes)
    ensures Fields([c] + rest, field, inQuotes) == Fields(rest, field + [c], inQuotes)
  {
    assert ([c] + rest)[1..] == rest;
  }

  lemma FieldsQuote(rest: string, field: string)
    ensures field != "" ==> Fields("\"" + rest, field, false) == Fields(rest, field + ['"'], false)
    ensures field == "" ==> Fields("\"" + rest, field, false) == Fields(rest, field, true)
    ensures rest == "" || rest[0] != '"' ==> Fields("\"" + rest, field, true) == Fields(rest, field, false)
    ensures Fields("\"\"" + rest, field, true) == Fields(rest, field + ['"'], true)
  {
    assert ("\"" + rest)[1..] == rest && ("\"\"" + rest)[2..] == rest;
  }

  lemma FieldsEnd(rest: string, field: string)
    ensures Fields("", field, false) == [field]
    ensures Fields("," + rest, field, false) == [field] + Fields(rest, "", false)
  {
    assert ("," + rest)[1..] == rest;
  }

  predicate Ends(rest: string) { rest == "" || rest[0] == ',' }

  lemma {:induction false} QuotedField(f: string, rest: string, field: string)
    requires Ends(rest)
    ensures Fields(Doubled(f) + ("\"" + rest), field, true) == Fields(rest, field + f, false)
  {
    hide Fields;
    if f == "" {
      assert Doubled(f) + ("\"" + rest) == "\"" + rest && field + f == field;
      FieldsQuote(rest, field);
    } else {
      var c, more := f[0], Doubled(f[1..]) + ("\"" + rest);
      QuotedField(f[1..], rest, field + [c]);
      assert field + [c] + f[1..] == field + f;
      if c == '"' {
        assert Doubled(f) + ("\"" + rest) == "\"\"" + more;
        FieldsQuote(more, field);
      } else {
        assert Doubled(f) + ("\"" + rest) == [c] + more;
        FieldsStep(c, more, field, true);
      }
    }
  }

  lemma {:induction false} PlainlyWritten(f: string, rest: string, field: string)
    requires ',' !in f && (f != "" && field == "" ==> f[0] != '"')
    ensures Fields(f + rest, field, false) == Fields(rest, field + f, false)
  {
    hide Fields;
    if f == "" {
      assert f + rest == rest && field + f == field;
    } else {
      var c, more := f[0], f[1..] + rest;
      assert c in f && f + rest == [c] + more && field + f == field + [c] + f[1..];
      if c == '"' {
        FieldsQuote(more, field);
      } else {
        FieldsStep(c, more, field, false);
      }
      PlainlyWritten(f[1..], rest, field + [c]);
    }
  }

  lemma OneField(f: string, style: Style, rest: string)
    requires Ends(rest) && (style == Plain ==> PlainField(f))
    ensures Fields(Written(f, style) + rest, "", false) == Fields(rest, f, false)
  {
    hide Fields;
    assert "" + f == f;
    if style == Quoted {
      var inner := Doubled(f) + ("\"" + rest);
      assert Written(f, style) + rest == "\"" + inner;
      FieldsQuote(inner, "");
      QuotedField(f, rest, "");
    } else {
      PlainlyWritten(f, rest, "");
    }
  }

  /** Reading a row gives back its fields, whatever commas and quotation marks the quoted ones hold. */
  lemma {:induction false} ParsesBack(fields: seq<string>, styles: seq<Style>)
    requires fields != [] && |fields| == |styles|
    requires forall i :: 0 <= i < |fields| && styles[i] == Plain ==> PlainField(fields[i])
    ensures Parse(Row(fields, styles)) == fields
  {
    hide Fields, Written;
    if |fields| == 1 {
      OneField(fields[0], styles[0], "");
      FieldsEnd("", fields[0]);
      assert Written(fields[0], styles[0]) + "" == Written(fields[0], styles[0]);
    } else {
      var rest := Row(fields[1..], styles[1..]);
      ParsesBack(fields[1..], styles[1..]);
      OneField(fields[0], styles[0], "," + rest);
      FieldsEnd(rest, fields[0]);
      assert Row(fields, styles) == Written(fields[0], styles[0]) + ("," + rest);
    }
  }

  /** A field may be left unquoted exactly when it holds no comma and does not begin with a
      quotation mark. */
  lemma PlainExactly(f: string)
    ensures Parse(f) == [f] <==> PlainField(f)
  {
    if PlainField(f) {
      OneField(f, Plain, "");
      FieldsEnd("", f);
      assert f + "" == f;
    } else if f != "" && f[0] == '"' {
      FieldsShrink(f[1..], "", true);
    } else {
      FieldsNoComma(f, "");
    }
  }

  /** Characters are only moved into fields or dropped. */
  lemma {:induction false} FieldsShrink(s: string, field: string, inQuotes: bool)
    ensures |Fields(s, field, inQuotes)[0]| <= |field| + |s|
    decreases |s|
  {
    if s != "" {
      if s[0] == '"' {
        if !inQuotes {
          FieldsShrink(s[1..], if field != "" then field + ['"'] else field, field == "");
        } else if |s| > 1 && s[1] == '"' {
          FieldsShrink(s[2..], field + ['"'], true);
        } else {
          FieldsShrink(s[1..], field, false);
        }
      } else if s[0] != ',' || inQuotes {
        FieldsShrink(s[1..], field + [s[0]], inQuotes);
      }
    }
  }

  /** Outside quotation marks a comma ends the field, so that fields do not hold it. */
  lemma {:induction false} FieldsNoComma(s: string, field: string)
    requires ',' in s && (field == "" && s != "" ==> s[0] != '"') && ',' !in field
    ensures |Fields(s, field, false)| > 1
    decreases |s|
  {
    if s[0] == ',' {
    } else {
      assert s == [s[0]] + s[1..];
      FieldsNoComma(s[1..], field + [s[0]]);
    }
  }

  // ----- the loop -----

  lemma Continue(done: seq<string>, field: string, rest: seq<string>)
    ensures done + ([field] + rest) == done + [field] + rest
  {
  }

  method ParseRow(input: string) returns (fields: seq<string>)
    ensures fields == Parse(input)
  {
    hide Fields;
    fields := [];
    var field, inQuotes := "", false;
    var i := 0;
    assert input[0..] == input && [] + Parse(input) == Parse(input);
    while i < |input|
      invariant i <= |input|
      invariant fields + Fields(input[i..], field, inQuotes) == Parse(input)
    {
      var ch := input[i];
      var rest := input[i + 1..];
      assert input[i..] == [ch] + rest;
      if ch == '"' {
        FieldsQuote(rest, field);
        if !inQuotes {
          if field != "" {
            field := field + ['"'];
          } else {
            inQuotes := true;
          }
        } else if i + 1 < |input| && input[i + 1] == '"' {
          assert input[i..] == "\"\"" + input[i + 2..];
          FieldsQuote(input[i + 2..], field);
          field := field + ['"'];
          i := i + 1;
        } else {
          inQuotes := false;
        }
      } else if ch == ',' {
        if inQuotes {
          FieldsStep(ch, rest, field, inQuotes);
          field := field + [','];
        } else {
          FieldsEnd(rest, field);
          Continue(fields, field, Fields(rest, "", false));
          fields := fields + [field];
          field := "";
        }
      } else {
        FieldsStep(ch, rest, field, inQuotes);
        field := field + [ch];
      }
      i := i + 1;
    }
    assert input[i..] == "";
    LastField(field, inQuotes);
    fields := fields + [field];
  }

  lemma LastField(field: string, inQuotes: bool)
    ensures Fields("", field, inQuotes) == [field]
  {
  }
}
