// One line of a CSV file (section 2 of RFC 4180): escaping, joining and splitting fields.
module Csv {
  import opened Strings

  function Doubled(s: string): string {
    if s == "" then "" else (if s[0] == '"' then "\"\"" else [s[0]]) + Doubled(s[1..])
  }

  predicate NeedsQuotes(value: string) { ',' in value || '"' in value || '\n' in value }

  function Escape(value: string): string {
    if NeedsQuotes(value) then "\"" + Doubled(value) + "\"" else value
  }

  // A field without separator, quote or line feed is printed as it is; any other in quotes, with its quotes doubled.
  lemma EscapeIs(value: string)
    ensures ',' !in value && '"' !in value && '\n' !in value ==> Escape(value) == value
    ensures ',' in value || '"' in value || '\n' in value ==> Escape(value) == ['"'] + Doubled(value) + ['"']
    ensures |Doubled(value)| == |value| + multiset(value)['"']
  {
    DoubledLength(value);
  }

  lemma {:induction false} DoubledLength(s: string)
    ensures |Doubled(s)| == |s| + multiset(s)['"']
    decreases |s|
  {
    if s != "" {
      DoubledLength(s[1..]);
      assert s == [s[0]] + s[1..];
    }
  }

  function EscapeAll(fields: seq<string>): seq<string> {
    if fields == [] then [] else [Escape(fields[0])] + EscapeAll(fields[1..])
  }

  function Line(fields: seq<string>): string { Join(EscapeAll(fields), ',') }

  // The fields still to come, from the field read so far and the rest of the line.
  function Scan(cur: string, inQuotes: bool, rest: string): (fields: seq<string>)
    ensures |fields| >= 1
    decreases |rest|
  {
    if rest == "" then [cur]
    else if inQuotes then
      if rest[0] == '"' && |rest| > 1 && rest[1] == '"' then Scan(cur + "\"", true, rest[2..])
      else if rest[0] == '"' then Scan(cur, false, rest[1..])
      else Scan(cur + [rest[0]], true, rest[1..])
    else if rest[0] == '"' then Scan(cur, true, rest[1..])
    else if rest[0] == ',' then [cur] + Scan("", false, rest[1..])
    else Scan(cur + [rest[0]], false, rest[1..])
  }

  function Fields(line: string): (fields: seq<string>)
    ensures |fields| >= 1
  {
    Scan("", false, line)
  }

  method SplitCsvLine(line: string) returns (out: seq<string>)
    ensures out == Fields(line)
  {
    out := [];
    var cur := "";
    var inQuotes := false;
    var i := 0;
    while i < |line|
      invariant 0 <= i <= |line|
      invariant out + Scan(cur, inQuotes, line[i..]) == Fields(line)
    {
      var ch := line[i];
      ghost var rest := line[i..];
      assert rest[0] == ch && rest[1..] == line[i + 1..];
      assert i + 1 < |line| ==> rest[1] == line[i + 1] && rest[2..] == line[i + 2..];
      if inQuotes {
        if ch == '"' && i + 1 < |line| && line[i + 1] == '"' {
          cur := cur + "\"";
          i := i + 1;
        } else if ch == '"' {
          inQuotes := false;
        } else {
          cur := cur + [ch];
        }
      } else if ch == '"' {
        inQuotes := true;
      } else if ch == ',' {
        assert out + ([cur] + Scan("", false, rest[1..])) == (out + [cur]) + Scan("", false, rest[1..]);
        out := out + [cur];
        cur := "";
      } else {
        cur := cur + [ch];
      }
      i := i + 1;
    }
    out := out + [cur];
  }

  // ---------- Splitting undoes joining ----------

  lemma {:induction false} ScanPlain(f: string, cur: string, rest: string)
    requires ',' !in f && '"' !in f
    ensures Scan(cur, false, f + rest) == Scan(cur + f, false, rest)
    decreases |f|
  {
    if f == "" {
      assert f + rest == rest && cur + f == cur;
    } else {
      assert (f + rest)[1..] == f[1..] + rest && (cur + [f[0]]) + f[1..] == cur + f;
      ScanPlain(f[1..], cur + [f[0]], rest);
    }
  }

  lemma {:induction false} ScanQuoted(f: string, cur: string, rest: string)
    requires rest == "" || rest[0] != '"'
    ensures Scan(cur, true, Doubled(f) + "\"" + rest) == Scan(cur + f, false, rest)
    decreases |f|
  {
    var whole := Doubled(f) + "\"" + rest;
    if f == "" {
      assert whole == "\"" + rest && whole[1..] == rest && cur + f == cur;
    } else {
      var tail := Doubled(f[1..]) + "\"" + rest;
      assert (cur + [f[0]]) + f[1..] == cur + f;
      ScanQuoted(f[1..], cur + [f[0]], rest);
      if f[0] == '"' {
        assert whole == "\"\"" + tail && whole[2..] == tail;
      } else {
        assert whole == [f[0]] + tail && whole[1..] == tail;
      }
    }
  }

  lemma ScanOpens(inside: string)
    ensures Scan("", false, ['"'] + inside) == Scan("", true, inside)
  {
    assert (['"'] + inside)[1..] == inside;
  }

  lemma ScanField(f: string, rest: string)
    requires rest == "" || rest[0] == ','
    ensures Scan("", false, Escape(f) + rest) == Scan(f, false, rest)
  {
    assert "" + f == f;
    if NeedsQuotes(f) {
      var inside := Doubled(f) + "\"" + rest;
      assert Escape(f) + rest == ['"'] + inside;
      ScanOpens(inside);
      ScanQuoted(f, "", rest);
    } else {
      ScanPlain(f, "", rest);
    }
  }

  lemma LineCons(f: string, rest: seq<string>)
    ensures Line([f] + rest) == if rest == [] then Escape(f) else Escape(f) + [','] + Line(rest)
  {
    var fields := [f] + rest;
    assert fields[1..] == rest;
    assert EscapeAll(fields) == [Escape(f)] + EscapeAll(rest);
    assert EscapeAll(fields)[1..] == EscapeAll(rest);
  }

  lemma FirstField(f: string, tail: string)
    ensures Fields(Escape(f)) == [f]
    ensures Fields(Escape(f) + [','] + tail) == [f] + Fields(tail)
  {
    assert Escape(f) + "" == Escape(f);
    ScanField(f, "");
    var rest := [','] + tail;
    assert Escape(f) + [','] + tail == Escape(f) + rest;
    ScanField(f, rest);
    assert rest[1..] == tail;
  }

  // Any fields, whatever they contain, come back from their line.
  lemma {:induction false} LineRoundTrip(fields: seq<string>)
    requires fields != []
    ensures Fields(Line(fields)) == fields
    decreases |fields|
  {
    var f, others := fields[0], fields[1..];
    assert fields == [f] + others;
    LineCons(f, others);
    FirstField(f, Line(others));
    if others != [] {
      LineRoundTrip(others);
    }
  }

  // ---------- No line feed gets in or out ----------

  predicate NoBreak(s: string) { '\n' !in s }

  lemma {:induction false} ScanNoBreak(cur: string, inQuotes: bool, rest: string)
    requires NoBreak(cur) && NoBreak(rest)
    ensures forall f :: f in Scan(cur, inQuotes, rest) ==> NoBreak(f)
    decreases |rest|
  {
    if rest != "" {
      if inQuotes {
        if rest[0] == '"' && |rest| > 1 && rest[1] == '"' {
          ScanNoBreak(cur + "\"", true, rest[2..]);
        } else if rest[0] == '"' {
          ScanNoBreak(cur, false, rest[1..]);
        } else {
          ScanNoBreak(cur + [rest[0]], true, rest[1..]);
        }
      } else if rest[0] == '"' {
        ScanNoBreak(cur, true, rest[1..]);
      } else if rest[0] == ',' {
        ScanNoBreak("", false, rest[1..]);
      } else {
        ScanNoBreak(cur + [rest[0]], false, rest[1..]);
      }
    }
  }

  lemma {:induction false} DoubledNoBreak(s: string)
    requires NoBreak(s)
    ensures NoBreak(Doubled(s))
    decreases |s|
  {
    if s != "" {
      DoubledNoBreak(s[1..]);
    }
  }

  // A printed line is one line; with two or more fields it has a separator.
  lemma {:induction false} LineNoBreak(fields: seq<string>)
    requires forall i :: 0 <= i < |fields| ==> NoBreak(fields[i])
    ensures NoBreak(Line(fields))
    ensures |fields| >= 2 ==> ',' in Line(fields)
    decreases |fields|
  {
    if fields != [] {
      var f, others := fields[0], fields[1..];
      assert fields == [f] + others;
      LineCons(f, others);
      EscapeNoBreak(f);
      LineNoBreak(others);
    }
  }

  lemma EscapeNoBreak(f: string)
    requires NoBreak(f)
    ensures NoBreak(Escape(f))
  {
    DoubledNoBreak(f);
  }

  // ---------- A carriage return before a line feed ----------

  // A line as it reads back when a line feed follows it.
  function Chomp(line: string): (rest: string)
    ensures forall c :: c in rest ==> c in line
    ensures forall c :: c in line && c != '\r' ==> c in rest
  {
    if line != "" && line[|line| - 1] == '\r' then
      assert line == line[..|line| - 1] + [line[|line| - 1]];
      line[..|line| - 1]
    else line
  }

  // Printed without quotes, the field ends in a carriage return.
  predicate EndsBare(f: string) { !NeedsQuotes(f) && f != "" && f[|f| - 1] == '\r' }

  // The fields that the line reads back as then: the last one loses a bare carriage return.
  function Shorn(fields: seq<string>): (shorn: seq<string>)
    requires fields != []
    ensures |shorn| == |fields|
  {
    var last := |fields| - 1;
    if EndsBare(fields[last]) then fields[last := Chomp(fields[last])] else fields
  }

  lemma ChompAppend(x: string, y: string)
    requires y != "" || (x != "" && x[|x| - 1] != '\r')
    ensures Chomp(x + y) == x + Chomp(y)
  {
    if y == "" {
      assert x + y == x && x + Chomp(y) == x;
    } else {
      assert (x + y)[|x + y| - 1] == y[|y| - 1];
      assert (x + y)[..|x + y| - 1] == x + y[..|y| - 1];
    }
  }

  lemma ChompField(f: string)
    ensures Chomp(Escape(f)) == if EndsBare(f) then Escape(Chomp(f)) else Escape(f)
  {
    if NeedsQuotes(f) {
      assert Escape(f)[|Escape(f)| - 1] == '"';
    } else {
      assert !NeedsQuotes(Chomp(f));
    }
  }

  lemma {:induction false} ChompLine(fields: seq<string>)
    requires fields != []
    ensures Chomp(Line(fields)) == Line(Shorn(fields))
    decreases |fields|
  {
    var f, others := fields[0], fields[1..];
    assert fields == [f] + others;
    LineCons(f, others);
    if others == [] {
      ChompField(f);
      LineCons(Shorn(fields)[0], []);
      assert Shorn(fields) == [Shorn(fields)[0]] + [];
    } else {
      ChompLine(others);
      assert Shorn(fields) == [f] + Shorn(others);
      LineCons(f, Shorn(others));
      ChompAppend(Escape(f) + [','], Line(others));
    }
  }
}
