/** The string operations behind RRULE lines: `split`, `join`, `upper`, and printing and reading
    decimal integers. */
module Text {
  import opened Wrappers

  /** `sep.join(parts)`. */
  function Join(parts: seq<string>, sep: char): string {
    if parts == [] then ""
    else if |parts| == 1 then parts[0]
    else parts[0] + [sep] + Join(parts[1..], sep)
  }

  /** `s.split(sep)`: one part more than there are separators. */
  function Split(s: string, sep: char): (parts: seq<string>)
    ensures parts != []
  {
    if sep !in s then [s]
    else
      var i := IndexOf(s, sep);
      [s[..i]] + Split(s[i + 1..], sep)
  }

  function IndexOf(s: string, c: char): (i: nat)
    requires c in s
    ensures i < |s| && s[i] == c && forall j :: 0 <= j < i ==> s[j] != c
  {
    if s[0] == c then 0 else 1 + IndexOf(s[1..], c)
  }

  lemma FirstSeparator(head: string, rest: string, sep: char)
    requires sep !in head
    ensures IndexOf(head + [sep] + rest, sep) == |head|
  {
    var s := head + [sep] + rest;
    assert s[|head|] == sep;
    var i := IndexOf(s, sep);
    assert forall j :: 0 <= j < |head| ==> s[j] == head[j];
  }

  /** Splitting undoes joining when no part holds the separator. */
  lemma {:induction false} SplitJoin(parts: seq<string>, sep: char)
    requires parts != [] && forall i :: 0 <= i < |parts| ==> sep !in parts[i]
    ensures Split(Join(parts, sep), sep) == parts
  {
    if |parts| > 1 {
      var rest := Join(parts[1..], sep);
      SplitJoin(parts[1..], sep);
      FirstSeparator(parts[0], rest, sep);
      var s := parts[0] + [sep] + rest;
      assert s[|parts[0]|] == sep;
      assert s[..|parts[0]|] == parts[0] && s[|parts[0]| + 1..] == rest;
    }
  }

  lemma SplitTwo(a: string, b: string, sep: char)
    requires sep !in a && sep !in b
    ensures Split(a + [sep] + b, sep) == [a, b]
  {
    SplitJoin([a, b], sep);
    assert [a, b][1..] == [b];
  }

  /** A character of no part but the separator does not occur in the joined string. */
  lemma {:induction false} JoinAvoids(parts: seq<string>, sep: char, c: char)
    requires c != sep && forall i :: 0 <= i < |parts| ==> c !in parts[i]
    ensures c !in Join(parts, sep)
  {
    if |parts| > 1 {
      JoinAvoids(parts[1..], sep, c);
    }
  }

  function UpperChar(c: char): char {
    if 'a' <= c <= 'z' then ((c as int - 'a' as int) + 'A' as int) as char else c
  }

  /** `s.upper()` on the characters that rule lines use. */
  function Upper(s: string): string {
    seq(|s|, i requires 0 <= i < |s| => UpperChar(s[i]))
  }

  lemma UpperIsIdentity(s: string)
    requires forall c :: c in s ==> !('a' <= c <= 'z')
    ensures Upper(s) == s
  {
    forall i | 0 <= i < |s| ensures UpperChar(s[i]) == s[i] {
      assert s[i] in s;
    }
  }

  /** A lower-case letter becomes the capital one, 32 places before it. */
  lemma UpperOfLetters(s: string, i: nat)
    requires i < |s|
    ensures |Upper(s)| == |s| && Upper(s)[i] as int == s[i] as int - if 'a' <= s[i] <= 'z' then 32 else 0
  {
  }

  lemma UpperTwice(s: string)
    ensures Upper(Upper(s)) == Upper(s)
  {
  }

  lemma UpperKeepsPlaces(s: string, sep: char, i: nat)
    requires !('A' <= sep <= 'Z') && !('a' <= sep <= 'z') && i < |s|
    ensures |Upper(s)| == |s| && forall j :: 0 <= j < |s| ==> (Upper(s)[j] == sep <==> s[j] == sep)
    ensures Upper(s)[..i] == Upper(s[..i]) && Upper(s)[i + 1..] == Upper(s[i + 1..])
  {
  }

  lemma SplitUnfolds(s: string, sep: char)
    ensures if sep in s then
              var i := IndexOf(s, sep); Split(s, sep) == [s[..i]] + Split(s[i + 1..], sep)
            else Split(s, sep) == [s]
  {
  }

  lemma UppersUnfold(head: string, rest: seq<string>)
    ensures Uppers([head] + rest) == [Upper(head)] + Uppers(rest) && Uppers([head]) == [Upper(head)]
  {
    hide Upper;
    assert Uppers([head] + rest)[1..] == Uppers(rest);
  }

  lemma FirstIndex(s: string, sep: char, i: nat)
    requires i < |s| && s[i] == sep && forall j :: 0 <= j < i ==> s[j] != sep
    ensures sep in s && IndexOf(s, sep) == i
  {
  }

  /** No letter's case changes where the separators are. */
  lemma {:induction false} SplitOfUpper(s: string, sep: char)
    requires !('A' <= sep <= 'Z') && !('a' <= sep <= 'z')
    ensures Split(Upper(s), sep) == Uppers(Split(s, sep))
    decreases |s|
  {
    hide Upper, Uppers, Split, IndexOf;
    SplitUnfolds(s, sep);
    SplitUnfolds(Upper(s), sep);
    if sep in s {
      var i := IndexOf(s, sep);
      UpperKeepsPlaces(s, sep, i);
      FirstIndex(Upper(s), sep, i);
      SplitOfUpper(s[i + 1..], sep);
      UppersUnfold(s[..i], Split(s[i + 1..], sep));
    } else {
      NoneInUpper(s, sep);
      UppersUnfold(s, []);
    }
  }

  lemma NoneInUpper(s: string, sep: char)
    requires !('A' <= sep <= 'Z') && !('a' <= sep <= 'z') && sep !in s
    ensures sep !in Upper(s)
  {
    if s != "" { UpperKeepsPlaces(s, sep, 0); }
  }

  function Uppers(parts: seq<string>): seq<string> {
    seq(|parts|, i requires 0 <= i < |parts| => Upper(parts[i]))
  }

  /** Characters of printed numbers, weekday names and their lists. */
  predicate IsValueChar(c: char) {
    '0' <= c <= '9' || 'A' <= c <= 'Z' || c == '+' || c == '-' || c == ','
  }

  predicate IsDigit(c: char) { '0' <= c <= '9' }

  function Digit(d: int): (c: char)
    requires 0 <= d < 10
    ensures IsDigit(c) && c as int - '0' as int == d
  {
    ('0' as int + d) as char
  }

  function PrintNat(n: nat): (s: string)
    ensures s != "" && forall c :: c in s ==> IsDigit(c)
  {
    if n < 10 then [Digit(n)] else PrintNat(n / 10) + [Digit(n % 10)]
  }

  /** `str(n)`. */
  function PrintInt(n: int): (s: string)
    ensures s != "" && forall c :: c in s ==> IsDigit(c) || c == '-'
  {
    if n < 0 then "-" + PrintNat(-n) else PrintNat(n)
  }

  /** `'{:+d}'.format(n)`. */
  function PrintSigned(n: int): (s: string)
    ensures s != "" && forall c :: c in s ==> IsDigit(c) || c == '-' || c == '+'
  {
    if n < 0 then PrintInt(n) else "+" + PrintNat(n)
  }

  function ReadNat(s: string): Option<int> {
    if s == "" || !IsDigit(s[|s| - 1]) then None
    else
      var low := s[|s| - 1] as int - '0' as int;
      if |s| == 1 then Some(low)
      else
        match ReadNat(s[..|s| - 1])
        case None => None
        case Some(high) => Some(high * 10 + low)
  }

  /** `int(s)` for a string without blanks or underscores; None is the ValueError. */
  function ReadInt(s: string): Option<int> {
    if s == "" then None
    else if s[0] == '-' then
      var magnitude := ReadNat(s[1..]);
      if magnitude.None? then None else Some(-magnitude.value)
    else if s[0] == '+' then ReadNat(s[1..])
    else ReadNat(s)
  }

  predicate IsDigits(s: string) {
    s != "" && forall i :: 0 <= i < |s| ==> IsDigit(s[i])
  }

  /** The texts of integers: digits, with or without a sign before them. */
  predicate IsInteger(s: string) {
    IsDigits(s) || (s != "" && (s[0] == '+' || s[0] == '-') && IsDigits(s[1..]))
  }

  lemma {:induction false} ReadsDigits(s: string)
    ensures ReadNat(s).Some? <==> IsDigits(s)
    ensures ReadNat(s).Some? ==> ReadNat(s).value >= 0 && ReadNat("0" + s) == ReadNat(s)
  {
    if |s| > 1 {
      var n := |s| - 1;
      ReadsDigits(s[..n]);
      assert ("0" + s)[..|s|] == "0" + s[..n];
    } else if |s| == 1 {
      assert ("0" + s)[..1] == "0";
    }
  }

  /** Exactly these texts are read. */
  lemma ReadsIntegers(s: string)
    ensures ReadInt(s).Some? <==> IsInteger(s)
  {
    if s != "" {
      ReadsDigits(s);
      ReadsDigits(s[1..]);
      hide ReadNat;
      assert IsDigits(s) ==> IsDigit(s[0]);
    }
  }

  lemma {:induction false} ReadsAll(parts: seq<string>)
    ensures ReadAll(parts).Some? <==> forall i :: 0 <= i < |parts| ==> IsInteger(parts[i])
    ensures ReadAll(parts).Some? ==>
              && |ReadAll(parts).value| == |parts|
              && forall i :: 0 <= i < |parts| ==> ReadInt(parts[i]) == Some(ReadAll(parts).value[i])
  {
    if parts != [] {
      ReadsAll(parts[1..]);
      ReadsIntegers(parts[0]);
      hide ReadInt, IsInteger;
      assert forall i :: 1 <= i < |parts| ==> parts[i] == parts[1..][i - 1];
    }
  }

  lemma {:induction false} ReadPrintNat(n: nat)
    ensures ReadNat(PrintNat(n)) == Some(n)
  {
    if n >= 10 {
      ReadPrintNat(n / 10);
      var s := PrintNat(n);
      assert s[..|s| - 1] == PrintNat(n / 10);
    }
  }

  /** Reading undoes both ways of printing an integer. */
  lemma ReadPrintInt(n: int)
    ensures ReadInt(PrintInt(n)) == Some(n) && ReadInt(PrintSigned(n)) == Some(n)
  {
    ReadPrintNat(if n < 0 then -n else n);
    hide PrintNat, ReadNat;
    if n < 0 {
      assert PrintInt(n)[1..] == PrintNat(-n);
    } else {
      assert IsDigit(PrintNat(n)[0]);
      assert PrintSigned(n)[1..] == PrintNat(n);
    }
  }

  /** `','.join(str(v) for v in values)`. */
  function PrintInts(values: seq<int>): string {
    Join(seq(|values|, i requires 0 <= i < |values| => PrintInt(values[i])), ',')
  }

  function ReadAll(parts: seq<string>): Option<seq<int>> {
    if parts == [] then Some([])
    else
      match (ReadInt(parts[0]), ReadAll(parts[1..]))
      case (Some(n), Some(rest)) => Some([n] + rest)
      case _ => None
  }

  /** `[int(x) for x in value.split(',')]`. */
  function ReadInts(s: string): Option<seq<int>> {
    ReadAll(Split(s, ','))
  }

  lemma {:induction false} ReadAllPrinted(values: seq<int>)
    ensures ReadAll(seq(|values|, i requires 0 <= i < |values| => PrintInt(values[i]))) == Some(values)
  {
    var texts := seq(|values|, i requires 0 <= i < |values| => PrintInt(values[i]));
    if values != [] {
      ReadPrintInt(values[0]);
      ReadAllPrinted(values[1..]);
      assert texts[1..] == seq(|values[1..]|, i requires 0 <= i < |values[1..]| => PrintInt(values[1..][i]));
      assert [values[0]] + values[1..] == values;
    }
  }

  lemma ReadPrintInts(values: seq<int>)
    requires values != []
    ensures ReadInts(PrintInts(values)) == Some(values)
    ensures forall c :: c in PrintInts(values) ==> IsValueChar(c)
  {
    var texts := seq(|values|, i requires 0 <= i < |values| => PrintInt(values[i]));
    SplitJoin(texts, ',');
    ReadAllPrinted(values);
    ValueCharsOfJoin(texts);
  }

  lemma ValueCharsOfJoin(texts: seq<string>)
    requires forall i, c :: 0 <= i < |texts| && c in texts[i] ==> IsValueChar(c)
    ensures forall c :: c in Join(texts, ',') ==> IsValueChar(c)
  {
    forall c | c in Join(texts, ',') ensures IsValueChar(c) {
      if !IsValueChar(c) {
        JoinAvoids(texts, ',', c);
      }
    }
  }
}
