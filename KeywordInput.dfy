/** Reading the keywords to work on from what the user supplied: pasted text, one keyword
    per line, or else the first column of an uploaded CSV file. Keywords are stripped of
    surrounding whitespace, lower-cased and de-duplicated. */
module KeywordInput {
  import opened Wrappers
  import opened Seqs

  /** Python's `str.isspace()` for one character. */
  predicate IsSpace(c: char) {
    c == ' ' || '\t' <= c <= '\r' || '\U{1c}' <= c <= '\U{1f}' || c == '\U{85}' || c == '\U{a0}'
    || c == '\U{1680}' || '\U{2000}' <= c <= '\U{200a}' || c == '\U{2028}' || c == '\U{2029}'
    || c == '\U{202f}' || c == '\U{205f}' || c == '\U{3000}'
  }

  /** `s.lstrip()`: `s` without its leading whitespace. */
  function TrimStart(s: string): (r: string)
    ensures |r| <= |s|
  {
    if s != [] && IsSpace(s[0]) then TrimStart(s[1..]) else s
  }

  /** What `lstrip` leaves is a suffix of `s` that does not start with whitespace, and what it
      cuts is all whitespace. */
  lemma {:induction false} TrimStartSpec(s: string)
    ensures var r := TrimStart(s);
            r == s[|s| - |r|..] && (r == [] || !IsSpace(r[0]))
            && forall i :: 0 <= i < |s| - |r| ==> IsSpace(s[i])
  {
    if s != [] && IsSpace(s[0]) {
      TrimStartSpec(s[1..]);
      assert forall i :: 1 <= i < |s| ==> s[i] == s[1..][i - 1];
    }
  }

  /** `s.rstrip()`: `s` without its trailing whitespace. */
  function TrimEnd(s: string): (r: string)
    ensures |r| <= |s|
  {
    if s != [] && IsSpace(s[|s| - 1]) then TrimEnd(s[..|s| - 1]) else s
  }

  /** What `rstrip` leaves is a prefix of `s` that does not end with whitespace, and what it
      cuts is all whitespace. */
  lemma {:induction false} TrimEndSpec(s: string)
    ensures var r := TrimEnd(s);
            r == s[..|r|] && (r == [] || !IsSpace(r[|r| - 1]))
            && forall i :: |r| <= i < |s| ==> IsSpace(s[i])
  {
    if s != [] && IsSpace(s[|s| - 1]) {
      TrimEndSpec(s[..|s| - 1]);
    }
  }

  /** `s.strip()`. */
  function Strip(s: string): string {
    TrimEnd(TrimStart(s))
  }

  /** How many whitespace characters `strip` cuts from the front of `s`. */
  function LeadingSpaces(s: string): nat {
    |s| - |TrimStart(s)|
  }

  /** A stripped string neither starts nor ends with whitespace, and it is what is left of
      `s` once leading and trailing whitespace are cut. */
  lemma StripSpec(s: string)
    ensures var r := Strip(s);
            var i := LeadingSpaces(s);
            (r == [] || (!IsSpace(r[0]) && !IsSpace(r[|r| - 1])))
            && i + |r| <= |s| && r == s[i..i + |r|]
            && (forall j :: 0 <= j < i ==> IsSpace(s[j]))
            && (forall j :: i + |r| <= j < |s| ==> IsSpace(s[j]))
  {
    var t := TrimStart(s);
    var r := TrimEnd(t);
    var i := |s| - |t|;
    assert t == s[i..] && (t == [] || !IsSpace(t[0])) && forall j :: 0 <= j < i ==> IsSpace(s[j]) by {
      TrimStartSpec(s);
    }
    assert r == t[..|r|] && (r == [] || !IsSpace(r[|r| - 1])) && forall j :: |r| <= j < |t| ==> IsSpace(t[j]) by {
      TrimEndSpec(t);
    }
    InfixOfSuffix(s, i, |r|);
    forall j | i + |r| <= j < |s|
      ensures IsSpace(s[j])
    {
      assert s[j] == t[j - i];
    }
    if r != [] {
      assert r[0] == t[0];
    }
  }

  /** Stripping twice is stripping once. */
  lemma StripIdempotent(s: string)
    ensures Strip(Strip(s)) == Strip(s)
  {
    var r := Strip(s);
    StripSpec(s);
    assert TrimStart(r) == r;
    assert TrimEnd(r) == r;
  }

  /** `c.lower()` for the ASCII letters; every other character is left as it is. */
  function LowerChar(c: char): char {
    if 'A' <= c <= 'Z' then (c as int + 32) as char else c
  }

  /** `s.lower()`, character by character. */
  function Lower(s: string): (r: string)
    ensures |r| == |s|
    ensures forall i :: 0 <= i < |s| ==> r[i] == LowerChar(s[i])
  {
    if s == [] then [] else [LowerChar(s[0])] + Lower(s[1..])
  }

  /** No upper-case ASCII letter is left in a lower-cased string, and lower-casing again
      changes nothing. */
  lemma LowerSpec(s: string)
    ensures forall i :: 0 <= i < |Lower(s)| ==> !('A' <= Lower(s)[i] <= 'Z')
    ensures Lower(Lower(s)) == Lower(s)
  {
  }

  /** `s.split(sep)`: the pieces between occurrences of `sep`, empty ones included; always at
      least one piece. */
  function Split(s: string, sep: char): (parts: seq<string>)
    ensures |parts| >= 1
    ensures forall i :: 0 <= i < |parts| ==> sep !in parts[i]
  {
    if s == [] then [[]]
    else if s[0] == sep then [[]] + Split(s[1..], sep)
    else
      var rest := Split(s[1..], sep);
      [[s[0]] + rest[0]] + rest[1..]
  }

  /** `sep.join(parts)`. */
  function Join(parts: seq<string>, sep: char): string
    requires |parts| >= 1
  {
    if |parts| == 1 then parts[0] else parts[0] + [sep] + Join(parts[1..], sep)
  }

  /** Splitting loses nothing: joining the pieces back gives the text. */
  lemma {:induction false} SplitJoin(s: string, sep: char)
    ensures Join(Split(s, sep), sep) == s
  {
    if s != [] {
      SplitJoin(s[1..], sep);
      var rest := Split(s[1..], sep);
      if s[0] == sep {
        assert ([[]] + rest)[1..] == rest;
      } else {
        var parts := [[s[0]] + rest[0]] + rest[1..];
        if |rest| > 1 {
          assert parts[1..] == rest[1..];
          assert Join(rest, sep) == rest[0] + [sep] + Join(rest[1..], sep);
        }
      }
    }
  }

  /** `[kw.strip() for kw in lines if kw.strip()]`. */
  function CleanLines(lines: seq<string>): seq<string> {
    if lines == [] then []
    else (if Strip(lines[0]) != [] then [Strip(lines[0])] else []) + CleanLines(lines[1..])
  }

  /** The cleaned lines are exactly the non-blank lines, stripped. */
  lemma {:induction false} CleanLinesMembers(lines: seq<string>, k: string)
    ensures k in CleanLines(lines) <==> exists i :: 0 <= i < |lines| && Strip(lines[i]) != [] && k == Strip(lines[i])
  {
    if lines != [] {
      CleanLinesMembers(lines[1..], k);
      if exists i :: 0 <= i < |lines| && Strip(lines[i]) != [] && k == Strip(lines[i]) {
        var i :| 0 <= i < |lines| && Strip(lines[i]) != [] && k == Strip(lines[i]);
        if i > 0 {
          assert lines[1..][i - 1] == lines[i];
        }
      }
      if exists i :: 0 <= i < |lines[1..]| && Strip(lines[1..][i]) != [] && k == Strip(lines[1..][i]) {
        var i :| 0 <= i < |lines[1..]| && Strip(lines[1..][i]) != [] && k == Strip(lines[1..][i]);
        assert lines[i + 1] == lines[1..][i];
      }
    }
  }

  /** `[str(kw).strip() for kw in column]`: the CSV path strips but keeps blank cells. */
  function StripAll(cells: seq<string>): (r: seq<string>)
    ensures |r| == |cells|
    ensures forall i :: 0 <= i < |cells| ==> r[i] == Strip(cells[i])
  {
    if cells == [] then [] else [Strip(cells[0])] + StripAll(cells[1..])
  }

  /** The keywords read from the input, before lower-casing. `column` stands for the uploaded
      file: None when there is none, otherwise the non-null cells of its first column as
      strings (none when the table is empty). */
  function RawKeywords(text: Option<string>, column: Option<seq<string>>): seq<string> {
    if text.Some? && text.value != [] then CleanLines(Split(text.value, '\n'))
    else if column.Some? then StripAll(column.value)
    else []
  }

  /** `[kw.lower() for kw in keywords]`. */
  function LowerAll(keywords: seq<string>): (r: seq<string>)
    ensures |r| == |keywords|
    ensures forall i :: 0 <= i < |keywords| ==> r[i] == Lower(keywords[i])
  {
    if keywords == [] then [] else [Lower(keywords[0])] + LowerAll(keywords[1..])
  }

  /** `list(set(kw.lower() for kw in keywords))`, as a set: its order is unspecified. */
  function KeywordsFromInput(text: Option<string>, column: Option<seq<string>>): set<string> {
    Elems(LowerAll(RawKeywords(text, column)))
  }

  /** Non-empty pasted text wins: the file is not read. */
  lemma TextWins(text: string, column1: Option<seq<string>>, column2: Option<seq<string>>)
    requires text != []
    ensures KeywordsFromInput(Some(text), column1) == KeywordsFromInput(Some(text), column2)
  {
  }

  /** Without text and without a file there are no keywords. */
  lemma NoInput(text: Option<string>)
    requires text.None? || text == Some([])
    ensures KeywordsFromInput(text, None) == {}
  {
  }

  /** Line `i` of `lines` is not blank, and stripping and lower-casing it gives `k`. */
  predicate LineGives(lines: seq<string>, i: int, k: string) {
    0 <= i < |lines| && Strip(lines[i]) != [] && k == Lower(Strip(lines[i]))
  }

  /** Each cleaned line, lower-cased, comes from a non-blank line of the input. */
  lemma LineKeywordFromLine(lines: seq<string>, k: string)
    requires k in Elems(LowerAll(CleanLines(lines)))
    ensures exists i :: LineGives(lines, i, k)
  {
    var clean := CleanLines(lines);
    var j :| 0 <= j < |clean| && LowerAll(clean)[j] == k;
    CleanLinesMembers(lines, clean[j]);
    var i :| 0 <= i < |lines| && Strip(lines[i]) != [] && clean[j] == Strip(lines[i]);
    assert LineGives(lines, i, k);
  }

  /** Every non-blank line of the input, stripped and lower-cased, is a keyword. */
  lemma LineKeywordKept(lines: seq<string>, i: int, k: string)
    requires LineGives(lines, i, k)
    ensures k in Elems(LowerAll(CleanLines(lines)))
  {
    var clean := CleanLines(lines);
    CleanLinesMembers(lines, Strip(lines[i]));
    var j :| 0 <= j < |clean| && clean[j] == Strip(lines[i]);
    assert LowerAll(clean)[j] == k;
  }

  /** The keywords of a list of lines are the non-blank lines, stripped and lower-cased. */
  lemma LinesKeywords(lines: seq<string>, k: string)
    ensures k in Elems(LowerAll(CleanLines(lines))) <==> exists i :: LineGives(lines, i, k)
  {
    if k in Elems(LowerAll(CleanLines(lines))) {
      LineKeywordFromLine(lines, k);
    }
    if exists i :: LineGives(lines, i, k) {
      var i :| LineGives(lines, i, k);
      LineKeywordKept(lines, i, k);
    }
  }

  /** Non-empty pasted text is read line by line. */
  lemma TextLines(text: string, column: Option<seq<string>>)
    requires text != []
    ensures KeywordsFromInput(Some(text), column) == Elems(LowerAll(CleanLines(Split(text, '\n'))))
  {
  }

  /** From pasted text, a keyword is there exactly when some non-blank line, stripped and
      lower-cased, gives it: no line is lost and nothing else comes in. */
  lemma TextKeywords(text: string, column: Option<seq<string>>, k: string)
    requires text != []
    ensures k in KeywordsFromInput(Some(text), column) <==> exists i :: LineGives(Split(text, '\n'), i, k)
  {
    TextLines(text, column);
    LinesKeywords(Split(text, '\n'), k);
  }

  /** A keyword made from a non-blank line is non-empty, contains no line break unless the
      line does, has no leading or trailing whitespace and has no upper-case ASCII letter. */
  lemma LineKeywordClean(line: string)
    requires Strip(line) != []
    ensures var k := Lower(Strip(line));
            k != [] && !IsSpace(k[0]) && !IsSpace(k[|k| - 1]) && ('\n' in k ==> '\n' in line)
            && forall i :: 0 <= i < |k| ==> !('A' <= k[i] <= 'Z')
  {
    var s := Strip(line);
    var k := Lower(s);
    assert !IsSpace(s[0]) && !IsSpace(s[|s| - 1]) && s == line[LeadingSpaces(line)..LeadingSpaces(line) + |s|] by {
      StripSpec(line);
    }
    LowerSpec(s);
    LowerCharKeeps(s[0]);
    LowerCharKeeps(s[|s| - 1]);
    if '\n' in k {
      var m :| 0 <= m < |k| && k[m] == '\n';
      LowerCharKeeps(s[m]);
      assert s[m] in line;
    }
  }

  /** Lower-casing turns no character into whitespace or a line break, and none out of them. */
  lemma LowerCharKeeps(c: char)
    ensures IsSpace(LowerChar(c)) == IsSpace(c)
    ensures LowerChar(c) == '\n' <==> c == '\n'
  {
  }

  /** From pasted text, every keyword is non-empty, holds no line break, has no leading or
      trailing whitespace and has no upper-case ASCII letter. */
  lemma TextKeywordsClean(text: string, column: Option<seq<string>>, k: string)
    requires text != [] && k in KeywordsFromInput(Some(text), column)
    ensures k != [] && !IsSpace(k[0]) && !IsSpace(k[|k| - 1]) && '\n' !in k
    ensures forall i :: 0 <= i < |k| ==> !('A' <= k[i] <= 'Z')
  {
    var lines := Split(text, '\n');
    TextKeywords(text, column, k);
    var i :| LineGives(lines, i, k);
    LineKeywordClean(lines[i]);
  }
}
