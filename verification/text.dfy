/**
 * Python string operations the scripts rely on: `str.split` with a one-character
 * separator, `str.join`, `str.strip()`, and the rows that `csv.writer(...,
 * delimiter=';')` writes and that the readers split again.
 */
module Text {
  import opened Common

  /** `s.split(sep)`: always at least one part. */
  function Split(s: string, sep: char): (parts: seq<string>)
    ensures |parts| >= 1
  {
    if |s| == 0 then [""]
    else
      var rest := Split(s[1..], sep);
      if s[0] == sep then [""] + rest
      else [[s[0]] + rest[0]] + rest[1..]
  }

  /** No part contains the separator, and there is one part more than
    * there are separators. */
  lemma {:induction false} SplitParts(s: string, sep: char)
    ensures forall p :: p in Split(s, sep) ==> sep !in p
    ensures |Split(s, sep)| == Count(s, sep) + 1
  {
    if |s| > 0 {
      var rest := Split(s[1..], sep);
      SplitParts(s[1..], sep);
      assert s == [s[0]] + s[1..];
      CountAppend([s[0]], s[1..], sep);
      if s[0] != sep {
        var parts := [[s[0]] + rest[0]] + rest[1..];
        assert forall p :: p in parts ==> p == parts[0] || p in rest;
      }
    }
  }

  /** `sep.join(parts)`. */
  function Join(parts: seq<string>, sep: char): string
  {
    if |parts| == 0 then ""
    else if |parts| == 1 then parts[0]
    else parts[0] + [sep] + Join(parts[1..], sep)
  }

  lemma {:induction false} SplitPrefix(p: string, rest: string, sep: char)
    requires sep !in p
    ensures Split(p + rest, sep) == [p + Split(rest, sep)[0]] + Split(rest, sep)[1..]
  {
    if |p| > 0 {
      var r := Split(rest, sep);
      var q := p[1..];
      assert (p + rest)[1..] == q + rest;
      assert (p + rest)[0] == p[0] && p[0] != sep;
      SplitPrefix(q, rest, sep);
      var t := Split(q + rest, sep);
      assert t[0] == q + r[0] && t[1..] == r[1..];
      assert [p[0]] + (q + r[0]) == p + r[0];
    } else {
      assert p + rest == rest;
      assert p + Split(rest, sep)[0] == Split(rest, sep)[0];
    }
  }

  /** Splitting a joined list gives the list back when no part holds the
    * separator and the list is not empty (`"".split(",")` is `[""]`). */
  lemma {:induction false} SplitJoin(parts: seq<string>, sep: char)
    requires |parts| >= 1
    requires forall p :: p in parts ==> sep !in p
    ensures Split(Join(parts, sep), sep) == parts
  {
    if |parts| == 1 {
      SplitPrefix(parts[0], "", sep);
      assert parts[0] + "" == parts[0];
    } else {
      var tail := Join(parts[1..], sep);
      SplitJoin(parts[1..], sep);
      assert parts[0] + [sep] + tail == parts[0] + ([sep] + tail);
      SplitPrefix(parts[0], [sep] + tail, sep);
      assert ([sep] + tail)[1..] == tail;
      assert parts[0] + "" == parts[0];
    }
  }

  /** Joining the parts of a split gives the string back. */
  lemma {:induction false} JoinSplit(s: string, sep: char)
    ensures Join(Split(s, sep), sep) == s
  {
    if |s| > 0 {
      var rest := Split(s[1..], sep);
      JoinSplit(s[1..], sep);
      if s[0] == sep {
        assert Join([""] + rest, sep) == "" + [sep] + Join(rest, sep);
      } else {
        var parts := [[s[0]] + rest[0]] + rest[1..];
        if |rest| == 1 {
          assert Join(parts, sep) == [s[0]] + rest[0];
        } else {
          assert parts[1..] == rest[1..];
          assert Join(parts, sep) == [s[0]] + (rest[0] + [sep] + Join(rest[1..], sep));
        }
      }
    }
  }

  /** Characters for which Python's `str.isspace()` holds. */
  predicate IsSpace(c: char)
  {
    c == ' ' || ('\t' <= c <= '\r') || ('\U{1c}' <= c <= '\U{1f}') || c == '\U{85}' || c == '\U{a0}'
    || c == '\U{1680}' || ('\U{2000}' <= c <= '\U{200a}') || c == '\U{2028}' || c == '\U{2029}'
    || c == '\U{202f}' || c == '\U{205f}' || c == '\U{3000}'
  }

  function LStrip(s: string): (r: string)
    ensures |r| <= |s| && r == s[|s| - |r|..]
    ensures |r| > 0 ==> !IsSpace(r[0])
    ensures forall k :: 0 <= k < |s| - |r| ==> IsSpace(s[k])
  {
    if |s| > 0 && IsSpace(s[0]) then
      var r := LStrip(s[1..]);
      assert forall k :: 1 <= k < |s| - |r| ==> s[k] == s[1..][k - 1];
      r
    else s
  }

  function RStrip(s: string): (r: string)
    ensures |r| <= |s| && r == s[..|r|]
    ensures |r| > 0 ==> !IsSpace(r[|r| - 1])
    ensures forall k :: |r| <= k < |s| ==> IsSpace(s[k])
  {
    if |s| > 0 && IsSpace(s[|s| - 1]) then RStrip(s[..|s| - 1]) else s
  }

  /** `s.strip()`: `s` without its leading and trailing whitespace. */
  function Strip(s: string): (r: string)
    ensures |r| <= |s|
    ensures |r| > 0 ==> !IsSpace(r[0]) && !IsSpace(r[|r| - 1])
    ensures (forall c :: c in s ==> !IsSpace(c)) ==> r == s
  {
    var l := LStrip(s);
    var r := RStrip(l);
    r
  }

  // ---------------------------------------------------------------------
  // csv.writer(file, delimiter=';') with the default dialect: quote '"',
  // doubled quotes, QUOTE_MINIMAL, line terminator "\r\n".

  const Delimiter: char := ';'
  const Terminator: string := "\r\n"

  /** QUOTE_MINIMAL quotes a field holding the delimiter, the quote character
    * or a line break. */
  predicate NeedsQuotes(f: string)
  {
    exists k :: 0 <= k < |f| && (f[k] == Delimiter || f[k] == '"' || f[k] == '\r' || f[k] == '\n')
  }

  function DoubleQuotes(f: string): (r: string)
    ensures |r| == |f| + Count(f, '"')
  {
    if |f| == 0 then ""
    else (if f[0] == '"' then "\"\"" else [f[0]]) + DoubleQuotes(f[1..])
  }

  function FormatField(f: string): (r: string)
    ensures !NeedsQuotes(f) ==> r == f
    ensures NeedsQuotes(f) ==> |r| >= 2 && r[0] == '"' && r[|r| - 1] == '"'
  {
    if NeedsQuotes(f) then "\"" + DoubleQuotes(f) + "\"" else f
  }

  function FormatFields(fields: seq<string>): (r: seq<string>)
    ensures |r| == |fields|
    ensures forall k :: 0 <= k < |fields| ==> r[k] == FormatField(fields[k])
  {
    if |fields| == 0 then [] else [FormatField(fields[0])] + FormatFields(fields[1..])
  }

  /** The text `writer.writerow(fields)` appends to the file. A row made of a
    * single empty field is written as `""` so that it is not a blank line. */
  function FormatRow(fields: seq<string>): string
  {
    (if fields == [""] then "\"\"" else Join(FormatFields(fields), Delimiter)) + Terminator
  }

  /** A field the writer leaves as it is and that survives `strip()`. */
  predicate PlainField(f: string)
  {
    !NeedsQuotes(f) && forall k :: 0 <= k < |f| ==> !IsSpace(f[k])
  }

  lemma {:induction false} JoinNoSpace(parts: seq<string>, sep: char)
    requires !IsSpace(sep)
    requires forall p :: p in parts ==> forall k :: 0 <= k < |p| ==> !IsSpace(p[k])
    ensures forall c :: c in Join(parts, sep) ==> !IsSpace(c)
  {
    if |parts| > 1 {
      JoinNoSpace(parts[1..], sep);
    }
  }

  /** The readers' `line.strip().split(';')` gives back the fields a writer
    * wrote, for plain fields (not the single empty field). */
  lemma WrittenRowReadBack(fields: seq<string>)
    requires |fields| >= 1 && fields != [""]
    requires forall f :: f in fields ==> PlainField(f)
    ensures Split(Strip(FormatRow(fields)), Delimiter) == fields
  {
    forall k | 0 <= k < |fields| ensures FormatField(fields[k]) == fields[k] {
      assert PlainField(fields[k]);
    }
    assert FormatFields(fields) == fields;
    var body := Join(fields, Delimiter);
    JoinNoSpace(fields, Delimiter);
    StripTrailing(body, Terminator);
    forall f | f in fields ensures Delimiter !in f {
      assert PlainField(f);
      assert forall k :: 0 <= k < |f| ==> f[k] != Delimiter;
    }
    SplitJoin(fields, Delimiter);
  }

  lemma StripTrailing(body: string, tail: string)
    requires forall c :: c in body ==> !IsSpace(c)
    requires forall c :: c in tail ==> IsSpace(c)
    ensures Strip(body + tail) == body
  {
    var s := body + tail;
    var l := LStrip(s);
    if |body| == 0 {
      assert s == tail;
      assert forall k :: 0 <= k < |s| ==> IsSpace(s[k]);
    } else {
      assert !IsSpace(s[0]);
      assert l == s;
      RStripTail(body, tail);
    }
  }

  lemma {:induction false} RStripTail(body: string, tail: string)
    requires |body| > 0 && !IsSpace(body[|body| - 1])
    requires forall c :: c in tail ==> IsSpace(c)
    ensures RStrip(body + tail) == body
    decreases |tail|
  {
    if |tail| == 0 {
      assert body + tail == body;
    } else {
      var s := body + tail;
      assert s[..|s| - 1] == body + tail[..|tail| - 1];
      assert IsSpace(s[|s| - 1]) by { assert s[|s| - 1] == tail[|tail| - 1]; }
      RStripTail(body, tail[..|tail| - 1]);
    }
  }

  // ---------------------------------------------------------------------
  // Adjacency rows: a key followed by its neighbours

  /** `[key, ",".join(value)]`. */
  function JoinedRow(key: string, neighbours: seq<string>): seq<string>
  {
    [key, Join(neighbours, ',')]
  }

  /** `[key] + value`: one field per neighbour. */
  function SpreadRow(key: string, neighbours: seq<string>): seq<string>
  {
    [key] + neighbours
  }

  /** A joined row splits back into the key and, for a non-empty list of
    * comma-free guids, exactly the neighbour list; an empty list gives the
    * single neighbour "". */
  lemma JoinedRowSplitsBack(key: string, neighbours: seq<string>)
    requires forall n :: n in neighbours ==> ',' !in n
    ensures JoinedRow(key, neighbours)[0] == key
    ensures |neighbours| >= 1 ==> Split(JoinedRow(key, neighbours)[1], ',') == neighbours
    ensures |neighbours| == 0 ==> Split(JoinedRow(key, neighbours)[1], ',') == [""]
  {
    if |neighbours| >= 1 {
      SplitJoin(neighbours, ',');
    }
  }

  /** The rows written for a dict of lists, one per key in key order, either
    * joined or spread. */
  function DictRows(d: seq<(string, seq<string>)>, joined: bool): (rows: seq<seq<string>>)
    ensures |rows| == |d|
  {
    seq(|d|, k requires 0 <= k < |d| => if joined then JoinedRow(d[k].0, d[k].1) else SpreadRow(d[k].0, d[k].1))
  }

  // ---------------------------------------------------------------------
  // Decimal numbers

  function DigitChar(d: nat): (c: char)
    requires d < 10
    ensures '0' <= c <= '9'
  {
    ('0' as int + d) as char
  }

  /** `str(n)` for a natural number: its decimal digits, no leading zero. */
  function DecimalString(n: nat): (s: string)
    ensures |s| >= 1
    ensures forall k :: 0 <= k < |s| ==> '0' <= s[k] <= '9'
    decreases n
  {
    if n < 10 then [DigitChar(n)] else DecimalString(n / 10) + [DigitChar(n % 10)]
  }

  /** `int(s)` for a string of decimal digits. */
  function DecimalValue(s: string): nat
    requires forall k :: 0 <= k < |s| ==> '0' <= s[k] <= '9'
    decreases |s|
  {
    if |s| == 0 then 0 else 10 * DecimalValue(s[..|s| - 1]) + (s[|s| - 1] as int - '0' as int)
  }

  /** Reading the digits back gives the number: two numbers never share a
    * decimal string. */
  lemma {:induction false} DecimalRoundTrip(n: nat)
    ensures DecimalValue(DecimalString(n)) == n
    decreases n
  {
    var s := DecimalString(n);
    if n >= 10 {
      DecimalRoundTrip(n / 10);
      assert s[..|s| - 1] == DecimalString(n / 10);
    }
  }

  lemma DecimalStringInjective(a: nat, b: nat)
    requires DecimalString(a) == DecimalString(b)
    ensures a == b
  {
    DecimalRoundTrip(a);
    DecimalRoundTrip(b);
  }
}
