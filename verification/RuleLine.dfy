/** The RRULE line that `__str__` prints, and `_parse_rfc_rrule`, which reads it back. */
module RuleLine {
  import opened Filtering
  import opened RuleFields
  import Sorting
  import opened Text
  import opened Wrappers

  /** `FREQNAMES`. */
  function FreqName(f: int): string
    requires InRange(f)
  {
    if f == YEARLY then "YEARLY" else if f == MONTHLY then "MONTHLY" else if f == WEEKLY then "WEEKLY"
    else if f == DAILY then "DAILY" else if f == HOURLY then "HOURLY" else if f == MINUTELY then "MINUTELY"
    else "SECONDLY"
  }

  /** `_freq_map`. */
  function FreqOf(name: string): Option<int> {
    if name == "YEARLY" then Some(YEARLY) else if name == "MONTHLY" then Some(MONTHLY)
    else if name == "WEEKLY" then Some(WEEKLY) else if name == "DAILY" then Some(DAILY)
    else if name == "HOURLY" then Some(HOURLY) else if name == "MINUTELY" then Some(MINUTELY)
    else if name == "SECONDLY" then Some(SECONDLY) else None
  }

  /** The first two letters of a weekday's `repr`. */
  function WeekdayName(w: int): string
    requires InRange(w)
  {
    if w == 0 then "MO" else if w == 1 then "TU" else if w == 2 then "WE" else if w == 3 then "TH"
    else if w == 4 then "FR" else if w == 5 then "SA" else "SU"
  }

  /** `_weekday_map`. */
  function WeekdayOf(name: string): Option<int> {
    if name == "MO" then Some(0) else if name == "TU" then Some(1) else if name == "WE" then Some(2)
    else if name == "TH" then Some(3) else if name == "FR" then Some(4) else if name == "SA" then Some(5)
    else if name == "SU" then Some(6) else None
  }

  predicate InRange(x: int) {
    0 <= x <= 6
  }

  /** The rule parts that have a handler. */
  datatype Key =
    | FREQ | INTERVAL | WKST | COUNT | BYSETPOS | BYMONTH | BYMONTHDAY | BYYEARDAY | BYWEEKNO | BYDAY
    | BYHOUR | BYMINUTE | BYSECOND | BYEASTER

  function NameOf(key: Key): string {
    match key
    case FREQ => "FREQ" case INTERVAL => "INTERVAL" case WKST => "WKST" case COUNT => "COUNT"
    case BYSETPOS => "BYSETPOS" case BYMONTH => "BYMONTH" case BYMONTHDAY => "BYMONTHDAY"
    case BYYEARDAY => "BYYEARDAY" case BYWEEKNO => "BYWEEKNO" case BYDAY => "BYDAY"
    case BYHOUR => "BYHOUR" case BYMINUTE => "BYMINUTE" case BYSECOND => "BYSECOND" case BYEASTER => "BYEASTER"
  }

  /** The handler found by name; BYWEEKDAY is another name of BYDAY. */
  function KeyOf(name: string): Option<Key> {
    if name == "FREQ" then Some(FREQ) else if name == "INTERVAL" then Some(INTERVAL)
    else if name == "WKST" then Some(WKST) else if name == "COUNT" then Some(COUNT)
    else if name == "BYSETPOS" then Some(BYSETPOS) else if name == "BYMONTH" then Some(BYMONTH)
    else if name == "BYMONTHDAY" then Some(BYMONTHDAY) else if name == "BYYEARDAY" then Some(BYYEARDAY)
    else if name == "BYWEEKNO" then Some(BYWEEKNO) else if name == "BYDAY" then Some(BYDAY)
    else if name == "BYWEEKDAY" then Some(BYDAY) else if name == "BYHOUR" then Some(BYHOUR)
    else if name == "BYMINUTE" then Some(BYMINUTE) else if name == "BYSECOND" then Some(BYSECOND)
    else if name == "BYEASTER" then Some(BYEASTER) else None
  }

  /** One `NAME=value` part of the line. */
  datatype Part = Part(key: Key, value: string)

  /** The frequency, the week start and the weekdays all have names. */
  predicate HasNames(rule: Rule) {
    && InRange(rule.freq) && InRange(rule.wkst)
    && (rule.original.byweekday.Some? ==> forall w :: w in rule.original.byweekday.value ==> InRange(w.weekday))
  }

  function PrintDay(w: Wday): string
    requires InRange(w.weekday)
  {
    (if w.n != 0 then PrintSigned(w.n) else "") + WeekdayName(w.weekday)
  }

  function PrintDays(days: seq<Wday>): string
    requires forall w :: w in days ==> InRange(w.weekday)
  {
    Join(seq(|days|, i requires 0 <= i < |days| => PrintDay(days[i])), ',')
  }

  function IntPart(key: Key, value: Option<int>): seq<Part> {
    if value.None? then [] else [Part(key, PrintInt(value.value))]
  }

  function ListPart(key: Key, values: Option<seq<int>>): seq<Part> {
    if values.None? || values.value == [] then [] else [Part(key, PrintInts(values.value))]
  }

  function DayPart(days: Option<seq<Wday>>): seq<Part>
    requires days.Some? ==> forall w :: w in days.value ==> InRange(w.weekday)
  {
    if days.None? || days.value == [] then [] else [Part(BYDAY, PrintDays(days.value))]
  }

  /** The parts in the order in which `__str__` appends them. */
  function HeadParts(rule: Rule): seq<Part>
    requires HasNames(rule)
  {
    [Part(FREQ, FreqName(rule.freq))]
    + (IntPart(INTERVAL, if rule.interval != 1 then Some(rule.interval) else None)
    + ((if rule.wkst != 0 then [Part(WKST, WeekdayName(rule.wkst))] else [])
    + IntPart(COUNT, rule.count)))
  }

  function DayParts(o: Original): seq<Part>
    requires o.byweekday.Some? ==> forall w :: w in o.byweekday.value ==> InRange(w.weekday)
  {
    ListPart(BYSETPOS, o.bysetpos)
    + (ListPart(BYMONTH, o.bymonth)
    + (ListPart(BYMONTHDAY, o.bymonthday)
    + (ListPart(BYYEARDAY, o.byyearday)
    + (ListPart(BYWEEKNO, o.byweekno)
    + DayPart(o.byweekday)))))
  }

  function TimeParts(o: Original): seq<Part> {
    ListPart(BYHOUR, o.byhour)
    + (ListPart(BYMINUTE, o.byminute)
    + (ListPart(BYSECOND, o.bysecond)
    + ListPart(BYEASTER, o.byeaster)))
  }

  function Parts(rule: Rule): seq<Part>
    requires HasNames(rule)
  {
    HeadParts(rule) + (DayParts(rule.original) + TimeParts(rule.original))
  }

  function PartTexts(parts: seq<Part>): seq<string> {
    seq(|parts|, i requires 0 <= i < |parts| => NameOf(parts[i].key) + "=" + parts[i].value)
  }

  /** The RRULE line of `rrule.__str__`. */
  function PrintLine(rule: Rule): string
    requires HasNames(rule)
  {
    "RRULE" + ":" + Join(PartTexts(Parts(rule)), ';')
  }

  predicate IsSignOrDigit(c: char) { c == '+' || c == '-' || IsDigit(c) }

  /** Length of the leading run of signs and digits; the scan stops short of the last character. */
  function NumberLength(s: string): (i: nat)
    requires s != ""
    ensures i < |s|
  {
    if |s| == 1 || !IsSignOrDigit(s[0]) then 0 else 1 + NumberLength(s[1..])
  }

  /** One BYDAY entry, of the form `MO(+1)` or `+1MO`. */
  function ReadDay(text: string): Option<Wday> {
    if '(' in text then
      var pieces := Split(text, '(');
      var inner := if |pieces| > 1 && pieces[1] != "" then pieces[1][..|pieces[1]| - 1] else "";
      NamedDay(pieces[0], inner)
    else if text != "" then
      var i := NumberLength(text);
      if i == 0 then
        var w := WeekdayOf(text);
        if w.None? then None else Some(Wday(w.value, 0))
      else NamedDay(text[i..], text[..i])
    else None
  }

  function NamedDay(name: string, number: string): Option<Wday> {
    match (WeekdayOf(name), ReadInt(number))
    case (Some(w), Some(n)) => if n == 0 then None else Some(Wday(w, n))
    case _ => None
  }

  function ReadDayList(texts: seq<string>): Option<seq<Wday>> {
    if texts == [] then Some([])
    else
      match (ReadDay(texts[0]), ReadDayList(texts[1..]))
      case (Some(w), Some(rest)) => Some([w] + rest)
      case _ => None
  }

  /** The handlers `_handle_NAME`; a value that cannot be read is a ValueError. */
  function Handle(k: Args, key: Key, value: string): Result<Args, Error> {
    match key
    case FREQ => var i := FreqOf(value); if i.None? then Err(ValueError) else Ok(k.(freq := i))
    case WKST => var i := WeekdayOf(value); if i.None? then Err(ValueError) else Ok(k.(wkst := i))
    case INTERVAL => var n := ReadInt(value); if n.None? then Err(ValueError) else Ok(k.(interval := n))
    case COUNT => var n := ReadInt(value); if n.None? then Err(ValueError) else Ok(k.(count := n))
    case BYDAY =>
      var days := ReadDayList(Split(value, ','));
      if days.None? then Err(ValueError) else Ok(k.(byweekday := days))
    case _ =>
      var list := ReadInts(value);
      if list.None? then Err(ValueError) else Ok(SetList(k, key, list))
  }

  function SetList(k: Args, key: Key, list: Option<seq<int>>): Args {
    match key
    case BYSETPOS => k.(bysetpos := list)
    case BYMONTH => k.(bymonth := list)
    case BYMONTHDAY => k.(bymonthday := list)
    case BYYEARDAY => k.(byyearday := list)
    case BYWEEKNO => k.(byweekno := list)
    case BYHOUR => k.(byhour := list)
    case BYMINUTE => k.(byminute := list)
    case BYSECOND => k.(bysecond := list)
    case BYEASTER => k.(byeaster := list)
    case _ => k
  }

  predicate IsListKey(key: Key) {
    key != FREQ && key != WKST && key != INTERVAL && key != COUNT && key != BYDAY
  }

  function HandlePairs(k: Args, pairs: seq<string>): Result<Args, Error>
    decreases |pairs|
  {
    if pairs == [] then Ok(k)
    else
      var pair := Split(pairs[0], '=');
      if |pair| != 2 then Err(ValueError)
      else
        match KeyOf(Upper(pair[0]))
        case None => Err(ValueError)  // unknown parameter
        case Some(key) =>
          match Handle(k, key, Upper(pair[1]))
          case Err(e) => Err(e)
          case Ok(k') => HandlePairs(k', pairs[1..])
  }

  /** `_parse_rfc_rrule` up to the constructor call, for a line without an UNTIL part. */
  function ParseLine(line: string): Result<Args, Error> {
    if ':' in line then
      var pieces := Split(line, ':');
      if |pieces| != 2 || pieces[0] != "RRULE" then Err(ValueError)
      else HandlePairs(NO_ARGS, Split(pieces[1], ';'))
    else HandlePairs(NO_ARGS, Split(line, ';'))
  }

  /** One entry of `_handle_BYWEEKDAY`, with the scan for the sign and digits before a name. */
  method ReadWday(wday: string) returns (r: Option<Wday>)
    ensures r == ReadDay(wday)
  {
    hide WeekdayOf, NamedDay;
    if '(' in wday {
      var splt := Split(wday, '(');
      var number := if |splt| > 1 && splt[1] != "" then splt[1][..|splt[1]| - 1] else "";
      return NamedDay(splt[0], number);
    }
    if wday == "" { return None; }
    var i := 0;
    while i < |wday| - 1 && IsSignOrDigit(wday[i])
      invariant 0 <= i < |wday| && i + NumberLength(wday[i..]) == NumberLength(wday)
    {
      assert wday[i..][1..] == wday[i + 1..];
      i := i + 1;
    }
    if i == 0 {
      var w := WeekdayOf(wday);
      r := if w.None? then None else Some(Wday(w.value, 0));
    } else {
      r := NamedDay(wday[i..], wday[..i]);
    }
  }

  /** The list read so far, and what the rest of the texts adds to it. */
  function After(l: seq<Wday>, rest: Option<seq<Wday>>): Option<seq<Wday>> {
    if rest.None? then None else Some(l + rest.value)
  }

  /** `_handle_BYWEEKDAY`; None stands for the exception that its caller turns into a ValueError. */
  method HandleByWeekday(value: string) returns (r: Option<seq<Wday>>)
    ensures r == ReadDayList(Split(value, ','))
  {
    hide ReadDay;
    var texts := Split(value, ',');
    var l: seq<Wday> := [];
    ghost var all := ReadDayList(texts);
    assert texts[0..] == texts && (all.Some? ==> l + all.value == all.value);
    for i := 0 to |texts|
      invariant ReadDayList(texts) == After(l, ReadDayList(texts[i..]))
    {
      var wday := ReadWday(texts[i]);
      assert texts[i..][0] == texts[i] && texts[i..][1..] == texts[i + 1..];
      if wday.None? { return None; }
      ghost var rest := ReadDayList(texts[i + 1..]);
      assert rest.Some? ==> l + ([wday.value] + rest.value) == (l + [wday.value]) + rest.value;
      l := l + [wday.value];
    }
    assert l + [] == l;
    r := Some(l);
  }

  /** The call of the handler found by name. */
  method CallHandler(k: Args, key: Key, value: string) returns (r: Result<Args, Error>)
    ensures r == Handle(k, key, value)
  {
    hide ReadDayList, ReadInts, Split;
    if key == BYDAY {
      var days := HandleByWeekday(value);
      return if days.None? then Err(ValueError) else Ok(k.(byweekday := days));
    }
    r := Handle(k, key, value);
  }

  /** The line names an UNTIL part, whose date text is not read here. */
  ghost predicate NamesUntil(line: string) {
    var pieces := Split(line, ':');
    var pairs := Split(if |pieces| == 2 then pieces[1] else line, ';');
    exists i :: 0 <= i < |pairs| && var pair := Split(pairs[i], '='); |pair| == 2 && Upper(pair[0]) == "UNTIL"
  }

  /** No line that is read as arguments names UNTIL, and so no line that `__str__` prints without one. */
  lemma ReadLineNamesNoUntil(line: string)
    requires ParseLine(line).Ok?
    ensures !NamesUntil(line)
  {
    var pieces := Split(line, ':');
    assert ':' !in line ==> pieces == [line];
    hide Split, HandlePairs;
    PairsNameNoUntil(NO_ARGS, Split(if |pieces| == 2 then pieces[1] else line, ';'));
  }

  lemma {:induction false} PairsNameNoUntil(k: Args, pairs: seq<string>)
    requires HandlePairs(k, pairs).Ok?
    ensures forall i :: 0 <= i < |pairs| ==>
              var pair := Split(pairs[i], '='); !(|pair| == 2 && Upper(pair[0]) == "UNTIL")
    decreases |pairs|
  {
    hide Split, Handle, Upper;
    if pairs != [] {
      var pair := Split(pairs[0], '=');
      assert KeyOf("UNTIL").None?;
      hide KeyOf;
      PairsNameNoUntil(Handle(k, KeyOf(Upper(pair[0])).value, Upper(pair[1])).value, pairs[1..]);
      assert forall i :: 1 <= i < |pairs| ==> pairs[i] == pairs[1..][i - 1];
    }
  }

  /** `_parse_rfc_rrule` up to the constructor call, with its loop over the pairs; nothing is said of a
      line with an UNTIL part. */
  method ParseRfcRrule(line: string) returns (r: Result<Args, Error>)
    ensures !NamesUntil(line) ==> r == ParseLine(line)
  {
    hide Handle, KeyOf, Split, Upper, NamesUntil;
    var value := line;
    if ':' in line {
      var pieces := Split(line, ':');
      if |pieces| != 2 || pieces[0] != "RRULE" { return Err(ValueError); }
      value := pieces[1];
    }
    var pairs, rrkwargs := Split(value, ';'), NO_ARGS;
    for i := 0 to |pairs|
      invariant HandlePairs(NO_ARGS, pairs) == HandlePairs(rrkwargs, pairs[i..])
    {
      assert pairs[i..][0] == pairs[i] && pairs[i..][1..] == pairs[i + 1..];
      var pair := Split(pairs[i], '=');
      if |pair| != 2 { return Err(ValueError); }
      var key := KeyOf(Upper(pair[0]));
      if key.None? { return Err(ValueError); }
      var handled := CallHandler(rrkwargs, key.value, Upper(pair[1]));
      if handled.Err? { return Err(handled.error); }
      rrkwargs := handled.value;
    }
    r := Ok(rrkwargs);
  }

  /** Handling parts that are already split into names and values. */
  function HandleParts(k: Args, parts: seq<Part>): Result<Args, Error>
    decreases |parts|
  {
    if parts == [] then Ok(k)
    else
      match Handle(k, parts[0].key, parts[0].value)
      case Err(e) => Err(e)
      case Ok(k') => HandleParts(k', parts[1..])
  }

  /** A part whose text splits back into its name and value, untouched by `upper`. */
  predicate IsPlain(p: Part) {
    forall c :: c in p.value ==> IsValueChar(c)
  }

  /** The printed names are found again, and hold only capital letters. */
  lemma KeyNames(key: Key)
    ensures KeyOf(NameOf(key)) == Some(key) && forall c :: c in NameOf(key) ==> 'A' <= c <= 'Z'
  {
  }

  lemma PlainPartSplits(p: Part)
    requires IsPlain(p)
    ensures var name := NameOf(p.key);
            && Split(name + "=" + p.value, '=') == [name, p.value] && KeyOf(Upper(name)) == Some(p.key)
            && Upper(p.value) == p.value && ';' !in name + "=" + p.value && ':' !in name + "=" + p.value
  {
    KeyNames(p.key);
    var name := NameOf(p.key);
    hide NameOf, KeyOf;
    SplitTwo(name, p.value, '=');
    UpperIsIdentity(name);
    UpperIsIdentity(p.value);
  }

  lemma {:induction false} PairsAreParts(k: Args, parts: seq<Part>)
    requires forall p :: p in parts ==> IsPlain(p)
    ensures HandlePairs(k, PartTexts(parts)) == HandleParts(k, parts)
    decreases |parts|
  {
    if parts != [] {
      var texts := PartTexts(parts);
      assert texts[1..] == PartTexts(parts[1..]);
      PlainPartSplits(parts[0]);
      var r := Handle(k, parts[0].key, parts[0].value);
      if r.Ok? {
        PairsAreParts(r.value, parts[1..]);
      }
    }
  }

  /** Parsing a line made of plain parts handles exactly these parts. */
  lemma ParseOfParts(parts: seq<Part>)
    requires parts != [] && forall p :: p in parts ==> IsPlain(p)
    ensures ParseLine("RRULE" + ":" + Join(PartTexts(parts), ';')) == HandleParts(NO_ARGS, parts)
  {
    var texts := PartTexts(parts);
    forall i | 0 <= i < |texts| ensures ';' !in texts[i] && ':' !in texts[i] {
      PlainPartSplits(parts[i]);
    }
    hide Split, Join, HandlePairs, HandleParts, PartTexts;
    var value := Join(texts, ';');
    JoinAvoids(texts, ';', ':');
    LineSplits(value);
    SplitJoin(texts, ';');
    PairsAreParts(NO_ARGS, parts);
  }

  // What a line is read as

  /** The codes behind the names of frequencies and weekdays. */
  lemma NamesOfCodes()
    ensures FreqOf("YEARLY") == Some(0) && FreqOf("MONTHLY") == Some(1) && FreqOf("WEEKLY") == Some(2)
    ensures FreqOf("DAILY") == Some(3) && FreqOf("HOURLY") == Some(4) && FreqOf("MINUTELY") == Some(5)
    ensures FreqOf("SECONDLY") == Some(6) && WeekdayOf("MO") == Some(0) && WeekdayOf("TU") == Some(1)
    ensures WeekdayOf("WE") == Some(2) && WeekdayOf("TH") == Some(3) && WeekdayOf("FR") == Some(4)
    ensures WeekdayOf("SA") == Some(5) && WeekdayOf("SU") == Some(6)
  {
  }

  /** The parts that have a name, one of them two. */
  lemma NamesOfParts(name: string)
    ensures KeyOf(name).Some? <==>
              name in ["FREQ", "INTERVAL", "WKST", "COUNT", "BYSETPOS", "BYMONTH", "BYMONTHDAY", "BYYEARDAY",
                       "BYWEEKNO", "BYDAY", "BYWEEKDAY", "BYHOUR", "BYMINUTE", "BYSECOND", "BYEASTER"]
    ensures KeyOf(name).Some? ==> name == NameOf(KeyOf(name).value) || name == "BYWEEKDAY"
  {
  }

  lemma KeysOfNames()
    ensures KeyOf("BYWEEKDAY") == KeyOf("BYDAY") == Some(BYDAY) && KeyOf("FREQ") == Some(FREQ)
    ensures KeyOf("INTERVAL") == Some(INTERVAL) && KeyOf("COUNT") == Some(COUNT) && KeyOf("WKST") == Some(WKST)
  {
  }

  lemma KeysOfListNames()
    ensures KeyOf("BYHOUR") == Some(BYHOUR) && KeyOf("BYMINUTE") == Some(BYMINUTE)
    ensures KeyOf("BYSECOND") == Some(BYSECOND)
    ensures KeyOf("BYMONTH") == Some(BYMONTH) && KeyOf("BYMONTHDAY") == Some(BYMONTHDAY)
    ensures KeyOf("BYYEARDAY") == Some(BYYEARDAY) && KeyOf("BYWEEKNO") == Some(BYWEEKNO)
    ensures KeyOf("BYSETPOS") == Some(BYSETPOS) && KeyOf("BYEASTER") == Some(BYEASTER)
  {
  }

  /** The name before the colon may be left out ... */
  lemma LineWithoutName(value: string)
    requires ':' !in value
    ensures ParseLine("RRULE" + ":" + value) == ParseLine(value)
  {
    LineSplits(value);
    hide Split, HandlePairs;
  }

  /** ... but no other name may stand there, nor a second colon. */
  lemma OtherLinesFail(pieces: seq<string>)
    requires |pieces| >= 2 && forall i :: 0 <= i < |pieces| ==> ':' !in pieces[i]
    requires |pieces| > 2 || pieces[0] != "RRULE"
    ensures ParseLine(Join(pieces, ':')) == Err(ValueError)
  {
    SplitJoin(pieces, ':');
    assert Join(pieces, ':')[|pieces[0]|] == ':';
    hide Split, Join, HandlePairs;
  }

  lemma {:induction false} PairsOfUpper(k: Args, pairs: seq<string>)
    ensures HandlePairs(k, Uppers(pairs)) == HandlePairs(k, pairs)
    decreases |pairs|
  {
    if pairs != [] {
      var pair := Split(pairs[0], '=');
      SplitOfUpper(pairs[0], '=');
      assert Uppers(pairs)[0] == Upper(pairs[0]) && Uppers(pairs)[1..] == Uppers(pairs[1..]);
      if |pair| == 2 {
        UpperTwice(pair[0]);
        UpperTwice(pair[1]);
      }
      hide Split, Upper, Handle, KeyOf;
      forall k' ensures HandlePairs(k', Uppers(pairs[1..])) == HandlePairs(k', pairs[1..]) {
        PairsOfUpper(k', pairs[1..]);
      }
    }
  }

  /** Names and values may be written in either case. */
  lemma CaseIsIgnored(value: string)
    requires ':' !in value
    ensures ParseLine(Upper(value)) == ParseLine(value)
  {
    SplitOfUpper(value, ';');
    PairsOfUpper(NO_ARGS, Split(value, ';'));
    assert ':' !in Upper(value) by { NoneInUpper(value, ':'); }
    hide Split, Upper, HandlePairs;
  }

  /** The values that a part can have. */
  predicate Readable(key: Key, value: string) {
    match key
    case FREQ => value in ["YEARLY", "MONTHLY", "WEEKLY", "DAILY", "HOURLY", "MINUTELY", "SECONDLY"]
    case WKST => value in ["MO", "TU", "WE", "TH", "FR", "SA", "SU"]
    case INTERVAL => IsInteger(value)
    case COUNT => IsInteger(value)
    case BYDAY => forall i :: 0 <= i < |Split(value, ',')| ==> ReadDay(Split(value, ',')[i]).Some?
    case _ => forall i :: 0 <= i < |Split(value, ',')| ==> IsInteger(Split(value, ',')[i])
  }

  lemma HandleExactlyReadable(k: Args, key: Key, value: string)
    ensures Handle(k, key, value).Ok? <==> Readable(key, value)
    ensures Handle(k, key, value).Err? ==> Handle(k, key, value).error == ValueError
  {
    ReadsIntegers(value);
    ReadsAll(Split(value, ','));
    ReadsDays(Split(value, ','));
    hide IsInteger, ReadInt, ReadAll, ReadDay, ReadDayList, Split;
  }

  lemma {:induction false} ReadsDays(texts: seq<string>)
    ensures ReadDayList(texts).Some? <==> forall i :: 0 <= i < |texts| ==> ReadDay(texts[i]).Some?
  {
    if texts != [] {
      ReadsDays(texts[1..]);
      hide ReadDay;
      assert forall i :: 1 <= i < |texts| ==> texts[i] == texts[1..][i - 1];
    }
  }

  /** A part is one name and one value, the name known and the value of its kind. */
  predicate IsPart(text: string) {
    var pair := Split(text, '=');
    |pair| == 2 && KeyOf(Upper(pair[0])).Some? && Readable(KeyOf(Upper(pair[0])).value, Upper(pair[1]))
  }

  lemma FirstPair(k: Args, pairs: seq<string>) returns (next: Args)
    requires pairs != []
    ensures HandlePairs(k, pairs) == if IsPart(pairs[0]) then HandlePairs(next, pairs[1..]) else Err(ValueError)
  {
    var pair := Split(pairs[0], '=');
    next := k;
    hide Split, Upper, Handle, KeyOf, Readable;
    if |pair| == 2 && KeyOf(Upper(pair[0])).Some? {
      var r := Handle(k, KeyOf(Upper(pair[0])).value, Upper(pair[1]));
      HandleExactlyReadable(k, KeyOf(Upper(pair[0])).value, Upper(pair[1]));
      if r.Ok? { next := r.value; }
    }
  }

  /** A line is read exactly when each of its parts is one; otherwise it is a ValueError. */
  lemma {:induction false} PairsExactlyParts(k: Args, pairs: seq<string>)
    ensures HandlePairs(k, pairs).Ok? <==> forall i :: 0 <= i < |pairs| ==> IsPart(pairs[i])
    ensures HandlePairs(k, pairs).Err? ==> HandlePairs(k, pairs).error == ValueError
    decreases |pairs|
  {
    if pairs != [] {
      var next := FirstPair(k, pairs);
      hide IsPart, HandlePairs;
      if IsPart(pairs[0]) { PairsExactlyParts(next, pairs[1..]); }
      assert forall i :: 1 <= i < |pairs| ==> pairs[i] == pairs[1..][i - 1];
    }
  }

  /** Parts with different names may change places, and of two with one name the later counts. */
  lemma PartsCommute(k: Args, p: Part, q: Part)
    requires Readable(p.key, p.value) && Readable(q.key, q.value)
    ensures p.key != q.key ==> HandleParts(k, [p, q]) == HandleParts(k, [q, p])
    ensures p.key == q.key ==> HandleParts(k, [p, q]) == HandleParts(k, [q])
  {
    hide Readable, ReadInt, ReadInts, ReadDayList, Split, FreqOf, WeekdayOf, HandleParts;
    HandleExactlyReadable(k, p.key, p.value);
    HandleExactlyReadable(k, q.key, q.value);
    TwoParts(k, p, q);
    TwoParts(k, q, p);
    HandleSame(k, p, q);
    HandleSame(k, q, p);
    hide Handle;
  }

  lemma TwoParts(k: Args, p: Part, q: Part)
    ensures HandleParts(k, [q]) == Handle(k, q.key, q.value)
    ensures var r := Handle(k, p.key, p.value);
            r.Ok? ==> HandleParts(k, [p, q]) == Handle(r.value, q.key, q.value)
  {
    assert [p, q][1..] == [q] && [q][1..] == [];
    hide Handle;
    assert forall k' :: HandleParts(k', []) == Ok(k');
  }

  /** What a part sets it sets whatever was handled before. */
  lemma HandleSame(k: Args, p: Part, q: Part)
    requires Handle(k, p.key, p.value).Ok? && Handle(k, q.key, q.value).Ok?
    ensures var a, b := Handle(k, p.key, p.value).value, Handle(k, q.key, q.value).value;
            && (p.key == q.key ==> Handle(a, q.key, q.value) == Ok(b))
            && (p.key != q.key ==> Handle(a, q.key, q.value) == Handle(b, p.key, p.value))
  {
    hide ReadInt, ReadInts, ReadDayList, Split, FreqOf, WeekdayOf;
  }

  lemma ZeroIsNoOrdinal(name: string)
    requires |name| == 2 && forall c :: c in name ==> 'A' <= c <= 'Z'
    ensures ReadDay("0" + name) == None
  {
    hide WeekdayOf;
    assert name[0] in name;
    NumberLengthOf("0", name);
    assert ("0" + name)[1..] == name && ("0" + name)[..1] == "0" && '(' !in "0" + name;
  }

  /** The other form of a weekday with its ordinal, and what is no weekday. */
  lemma OtherDays(w: Wday)
    requires InRange(w.weekday)
    ensures w.n != 0 ==> ReadDay(WeekdayName(w.weekday) + "(" + PrintSigned(w.n) + ")") == Some(w)
    ensures ReadDay("") == None && ReadDay("0" + WeekdayName(w.weekday)) == None
  {
    var name, number := WeekdayName(w.weekday), PrintSigned(w.n) + ")";
    WeekdayNames(w.weekday);
    ReadPrintInt(w.n);
    assert '(' !in number;
    SplitTwo(name, number, '(');
    assert name + "(" + PrintSigned(w.n) + ")" == name + "(" + number;
    assert (name + "(" + number)[2] == '(';
    assert number[..|number| - 1] == PrintSigned(w.n);
    hide WeekdayName, PrintSigned, Split;
    ZeroIsNoOrdinal(name);
  }

  lemma LineSplits(value: string)
    requires ':' !in value
    ensures ':' in "RRULE" + ":" + value && Split("RRULE" + ":" + value, ':') == ["RRULE", value]
  {
    SplitTwo("RRULE", value, ':');
    assert ("RRULE" + ":" + value)[5] == ':';
  }

  lemma {:induction false} HandleAppend(k: Args, a: seq<Part>, b: seq<Part>, k': Args)
    requires HandleParts(k, a) == Ok(k')
    ensures HandleParts(k, a + b) == HandleParts(k', b)
    decreases |a|
  {
    if a == [] {
      assert a + b == b;
    } else {
      assert (a + b)[1..] == a[1..] + b;
      HandleAppend(Handle(k, a[0].key, a[0].value).value, a[1..], b, k');
    }
  }

  /** A list part sets its field; an empty list prints nothing and leaves the field unset. */
  lemma ListPartHandled(k: Args, key: Key, values: Option<seq<int>>)
    requires IsListKey(key) && SetList(k, key, None) == k
    ensures HandleParts(k, ListPart(key, values)) == Ok(SetList(k, key, NonEmpty(values)))
    ensures forall p :: p in ListPart(key, values) ==> IsPlain(p)
  {
    if NonEmpty(values).Some? {
      ReadPrintInts(values.value);
      hide ReadInts, PrintInts;
      var part := Part(key, PrintInts(values.value));
      assert ListPart(key, values) == [part];
      assert Handle(k, key, part.value) == Ok(SetList(k, key, values));
      assert [part][1..] == [];
    }
  }

  lemma {:induction false} NumberLengthOf(number: string, name: string)
    requires forall c :: c in number ==> IsSignOrDigit(c)
    requires name != "" && !IsSignOrDigit(name[0])
    ensures NumberLength(number + name) == |number|
  {
    hide IsSignOrDigit;
    if number == "" {
      assert number + name == name;
    } else {
      NumberLengthOf(number[1..], name);
      assert (number + name)[1..] == number[1..] + name;
      assert number[0] in number;
    }
  }

  lemma WeekdayNames(w: int)
    requires InRange(w)
    ensures WeekdayOf(WeekdayName(w)) == Some(w) && |WeekdayName(w)| == 2
    ensures forall c :: c in WeekdayName(w) ==> 'A' <= c <= 'Z'
  {
  }

  lemma FreqNames(f: int)
    requires InRange(f)
    ensures FreqOf(FreqName(f)) == Some(f) && forall c :: c in FreqName(f) ==> 'A' <= c <= 'Z'
  {
  }

  /** A text of a number and a name is taken apart again. */
  lemma ReadDayParts(number: string, name: string)
    requires forall c :: c in number ==> IsSignOrDigit(c)
    requires name != "" && !IsSignOrDigit(name[0]) && '(' !in number + name
    ensures ReadDay(number + name)
         == if number != "" then NamedDay(name, number)
            else if WeekdayOf(name).None? then None else Some(Wday(WeekdayOf(name).value, 0))
  {
    NumberLengthOf(number, name);
    hide WeekdayOf, NamedDay, NumberLength, IsSignOrDigit;
    var text := number + name;
    assert text[..|number|] == number && text[|number|..] == name;
    assert number == "" ==> text == name;
  }

  lemma DayChars(w: Wday)
    requires InRange(w.weekday)
    ensures var number, name := if w.n != 0 then PrintSigned(w.n) else "", WeekdayName(w.weekday);
            && PrintDay(w) == number + name && (number == "" <==> w.n == 0)
            && (forall c :: c in number ==> IsSignOrDigit(c)) && name != "" && !IsSignOrDigit(name[0])
            && '(' !in number + name
    ensures forall c :: c in PrintDay(w) ==> IsValueChar(c) && c != ','
  {
    WeekdayNames(w.weekday);
    hide WeekdayOf, WeekdayName, PrintSigned;
    var name := WeekdayName(w.weekday);
    var first := name[0];
    assert first in name;
  }

  /** A printed weekday, with or without its signed ordinal, reads back as itself. */
  lemma ReadPrintDay(w: Wday)
    requires InRange(w.weekday)
    ensures ReadDay(PrintDay(w)) == Some(w)
    ensures forall c :: c in PrintDay(w) ==> IsValueChar(c) && c != ','
  {
    WeekdayNames(w.weekday);
    ReadPrintInt(w.n);
    DayChars(w);
    hide WeekdayOf, WeekdayName, PrintSigned, ReadInt, ReadDay, PrintDay, IsValueChar, IsSignOrDigit;
    ReadDayParts(if w.n != 0 then PrintSigned(w.n) else "", WeekdayName(w.weekday));
  }

  lemma {:induction false} ReadPrintedDays(days: seq<Wday>)
    requires forall w :: w in days ==> InRange(w.weekday)
    ensures ReadDayList(seq(|days|, i requires 0 <= i < |days| => PrintDay(days[i]))) == Some(days)
  {
    var texts := seq(|days|, i requires 0 <= i < |days| => PrintDay(days[i]));
    if days != [] {
      ReadPrintDay(days[0]);
      var rest := days[1..];
      ReadPrintedDays(rest);
      assert texts[1..] == seq(|rest|, i requires 0 <= i < |rest| => PrintDay(rest[i]));
      assert [days[0]] + rest == days;
    }
  }

  lemma ReadPrintDays(days: seq<Wday>)
    requires days != [] && forall w :: w in days ==> InRange(w.weekday)
    ensures ReadDayList(Split(PrintDays(days), ',')) == Some(days)
    ensures forall c :: c in PrintDays(days) ==> IsValueChar(c)
  {
    var texts := seq(|days|, i requires 0 <= i < |days| => PrintDay(days[i]));
    forall i | 0 <= i < |texts| ensures ',' !in texts[i] && forall c :: c in texts[i] ==> IsValueChar(c) {
      ReadPrintDay(days[i]);
    }
    SplitJoin(texts, ',');
    ReadPrintedDays(days);
    ValueCharsOfJoin(texts);
  }

  lemma DayPartHandled(k: Args, days: Option<seq<Wday>>)
    requires days.Some? ==> forall w :: w in days.value ==> InRange(w.weekday)
    requires k.byweekday.None?
    ensures HandleParts(k, DayPart(days)) == Ok(k.(byweekday := NonEmpty(days)))
    ensures forall p :: p in DayPart(days) ==> IsPlain(p)
  {
    hide Handle, HandleParts, IsPlain;
    if NonEmpty(days).Some? {
      DayTextHandled(k, days.value);
      HandleOne(k, Part(BYDAY, PrintDays(days.value)));
    } else {
      NoPart(k);
    }
  }

  lemma NoPart(k: Args)
    ensures HandleParts(k, []) == Ok(k)
  {
  }

  lemma DayTextHandled(k: Args, days: seq<Wday>)
    requires days != [] && forall w :: w in days ==> InRange(w.weekday)
    ensures Handle(k, BYDAY, PrintDays(days)) == Ok(k.(byweekday := Some(days)))
    ensures IsPlain(Part(BYDAY, PrintDays(days)))
  {
    hide ReadDayList, PrintDays, Split, IsValueChar, ReadInt, ReadInts, FreqOf, WeekdayOf, Join, PrintDay;
    ReadPrintDays(days);
  }

  lemma HandleOne(k: Args, part: Part)
    ensures HandleParts(k, [part]) == Handle(k, part.key, part.value)
  {
    hide Handle;
    assert [part][1..] == [];
    assert forall k' :: HandleParts(k', []) == Ok(k');
  }

  lemma IntPartHandled(k: Args, key: Key, value: Option<int>, k': Args)
    requires key == INTERVAL || key == COUNT
    requires k' == if value.None? then k else if key == COUNT then k.(count := value) else k.(interval := value)
    ensures HandleParts(k, IntPart(key, value)) == Ok(k')
    ensures forall p :: p in IntPart(key, value) ==> IsPlain(p)
  {
    if value.Some? {
      ReadPrintInt(value.value);
      hide ReadInt, PrintInt;
      var part := Part(key, PrintInt(value.value));
      assert IntPart(key, value) == [part];
      assert Handle(k, key, part.value) == Ok(k');
      assert [part][1..] == [];
    }
  }

  lemma NamePartsHandled(k: Args, index: int)
    requires InRange(index)
    ensures var freq, wkst := Part(FREQ, FreqName(index)), Part(WKST, WeekdayName(index));
            && IsPlain(freq) && HandleParts(k, [freq]) == Ok(k.(freq := Some(index)))
            && IsPlain(wkst) && HandleParts(k, [wkst]) == Ok(k.(wkst := Some(index)))
  {
    FreqNames(index);
    WeekdayNames(index);
    hide FreqName, FreqOf, WeekdayName, WeekdayOf;
    var freq, wkst := Part(FREQ, FreqName(index)), Part(WKST, WeekdayName(index));
    assert [freq][1..] == [] && [wkst][1..] == [];
    assert Handle(k, FREQ, freq.value).Ok? && Handle(k, WKST, wkst.value).Ok?;
  }

  lemma HeadPartsHandled(rule: Rule)
    requires HasNames(rule)
    ensures HandleParts(NO_ARGS, HeadParts(rule))
         == Ok(NO_ARGS.(freq := Some(rule.freq), interval := if rule.interval != 1 then Some(rule.interval) else None,
                        wkst := if rule.wkst != 0 then Some(rule.wkst) else None, count := rule.count))
    ensures forall p :: p in HeadParts(rule) ==> IsPlain(p)
  {
    var p1 := [Part(FREQ, FreqName(rule.freq))];
    var interval := if rule.interval != 1 then Some(rule.interval) else None;
    var p2 := IntPart(INTERVAL, interval);
    var p3 := if rule.wkst != 0 then [Part(WKST, WeekdayName(rule.wkst))] else [];
    var p4 := IntPart(COUNT, rule.count);
    var k1 := NO_ARGS.(freq := Some(rule.freq));
    var k2 := k1.(interval := interval);
    var k3 := k2.(wkst := if rule.wkst != 0 then Some(rule.wkst) else None);
    var k4 := k3.(count := rule.count);
    NamePartsHandled(NO_ARGS, rule.freq);
    IntPartHandled(k1, INTERVAL, interval, k2);
    NamePartsHandled(k2, rule.wkst);
    IntPartHandled(k3, COUNT, rule.count, k4);
    assert HandleParts(k2, p3) == Ok(k3);
    hide Handle, IntPart, IsPlain, FreqName, WeekdayName;
    HandleAppend(NO_ARGS, p1, p2 + (p3 + p4), k1);
    HandleAppend(k1, p2, p3 + p4, k2);
    HandleAppend(k2, p3, p4, k3);
  }

  /** What the setters of the day lists make of a state without any, in their order. */
  lemma DaySetters(k: Args, p: Option<seq<int>>, m: Option<seq<int>>, d: Option<seq<int>>, y: Option<seq<int>>,
                   w: Option<seq<int>>)
    requires k.bysetpos == k.bymonth == k.bymonthday == k.byyearday == k.byweekno == None
    ensures var k1 := SetList(k, BYSETPOS, p);
            && k1 == k.(bysetpos := p) && SetList(k, BYSETPOS, None) == k && SetList(k1, BYMONTH, None) == k1
            && var k2 := SetList(k1, BYMONTH, m);
               && k2 == k.(bysetpos := p, bymonth := m) && SetList(k2, BYMONTHDAY, None) == k2
               && var k3 := SetList(k2, BYMONTHDAY, d);
                  && k3 == k.(bysetpos := p, bymonth := m, bymonthday := d) && SetList(k3, BYYEARDAY, None) == k3
                  && var k4 := SetList(k3, BYYEARDAY, y);
                     && k4 == k.(bysetpos := p, bymonth := m, bymonthday := d, byyearday := y)
                     && SetList(k4, BYWEEKNO, None) == k4
                     && SetList(k4, BYWEEKNO, w)
                     == k.(bysetpos := p, bymonth := m, bymonthday := d, byyearday := y, byweekno := w)
  {
  }

  lemma DayPartsHandled(o: Original, k: Args)
    requires o.byweekday.Some? ==> forall w :: w in o.byweekday.value ==> InRange(w.weekday)
    requires k.bysetpos == k.bymonth == k.bymonthday == k.byyearday == k.byweekno == None && k.byweekday == None
    ensures HandleParts(k, DayParts(o))
         == Ok(k.(bysetpos := NonEmpty(o.bysetpos), bymonth := NonEmpty(o.bymonth),
                  bymonthday := NonEmpty(o.bymonthday), byyearday := NonEmpty(o.byyearday),
                  byweekno := NonEmpty(o.byweekno), byweekday := NonEmpty(o.byweekday)))
    ensures AllPlain(DayParts(o))
  {
    hide Handle, HandleParts, ListPart, DayPart, AllPlain, NonEmpty, SetList;
    DaySetters(k, NonEmpty(o.bysetpos), NonEmpty(o.bymonth), NonEmpty(o.bymonthday), NonEmpty(o.byyearday),
               NonEmpty(o.byweekno));
    var p2, p3 := ListPart(BYMONTH, o.bymonth), ListPart(BYMONTHDAY, o.bymonthday);
    var p4, p5, p6 := ListPart(BYYEARDAY, o.byyearday), ListPart(BYWEEKNO, o.byweekno), DayPart(o.byweekday);
    var k1 := ListFirst(k, BYSETPOS, o.bysetpos, p2 + (p3 + (p4 + (p5 + p6))));
    var k2 := ListFirst(k1, BYMONTH, o.bymonth, p3 + (p4 + (p5 + p6)));
    var k3 := ListFirst(k2, BYMONTHDAY, o.bymonthday, p4 + (p5 + p6));
    var k4 := ListFirst(k3, BYYEARDAY, o.byyearday, p5 + p6);
    var k5 := ListFirst(k4, BYWEEKNO, o.byweekno, p6);
    DayPartHandled(k5, o.byweekday);
    assert AllPlain(p6) by { PlainIfEach(p6); }
  }

  /** Every part splits back. */
  ghost predicate AllPlain(parts: seq<Part>) {
    forall p :: p in parts ==> IsPlain(p)
  }

  lemma PlainIfEach(parts: seq<Part>)
    ensures (forall p :: p in parts ==> IsPlain(p)) ==> AllPlain(parts)
  {
  }

  /** A list part in front of others. */
  lemma ListFirst(k: Args, key: Key, values: Option<seq<int>>, rest: seq<Part>) returns (k': Args)
    requires IsListKey(key) && SetList(k, key, None) == k
    ensures k' == SetList(k, key, NonEmpty(values))
    ensures HandleParts(k, ListPart(key, values) + rest) == HandleParts(k', rest)
    ensures AllPlain(rest) ==> AllPlain(ListPart(key, values) + rest)
  {
    hide Handle, HandleParts, ListPart, IsPlain, NonEmpty, SetList;
    k' := SetList(k, key, NonEmpty(values));
    ListPartHandled(k, key, values);
    HandleAppend(k, ListPart(key, values), rest, k');
  }

  /** What the setters of the time lists make of a state without any, in their order. */
  lemma TimeSetters(k: Args, h: Option<seq<int>>, m: Option<seq<int>>, s: Option<seq<int>>, e: Option<seq<int>>)
    requires k.byhour == k.byminute == k.bysecond == k.byeaster == None
    ensures var k1 := SetList(k, BYHOUR, h);
            && k1 == k.(byhour := h) && SetList(k, BYHOUR, None) == k && SetList(k1, BYMINUTE, None) == k1
            && var k2 := SetList(k1, BYMINUTE, m);
               && k2 == k.(byhour := h, byminute := m) && SetList(k2, BYSECOND, None) == k2
               && var k3 := SetList(k2, BYSECOND, s);
                  && k3 == k.(byhour := h, byminute := m, bysecond := s) && SetList(k3, BYEASTER, None) == k3
                  && SetList(k3, BYEASTER, e) == k.(byhour := h, byminute := m, bysecond := s, byeaster := e)
  {
  }

  lemma TimePartsHandled(o: Original, k: Args)
    requires k.byhour == k.byminute == k.bysecond == k.byeaster == None
    ensures HandleParts(k, TimeParts(o))
         == Ok(k.(byhour := NonEmpty(o.byhour), byminute := NonEmpty(o.byminute),
                  bysecond := NonEmpty(o.bysecond), byeaster := NonEmpty(o.byeaster)))
    ensures AllPlain(TimeParts(o))
  {
    hide Handle, HandleParts, ListPart, AllPlain, NonEmpty, SetList;
    TimeSetters(k, NonEmpty(o.byhour), NonEmpty(o.byminute), NonEmpty(o.bysecond), NonEmpty(o.byeaster));
    var p2, p3, p4 := ListPart(BYMINUTE, o.byminute), ListPart(BYSECOND, o.bysecond), ListPart(BYEASTER, o.byeaster);
    var k1 := ListFirst(k, BYHOUR, o.byhour, p2 + (p3 + p4));
    var k2 := ListFirst(k1, BYMINUTE, o.byminute, p3 + p4);
    var k3 := ListFirst(k2, BYSECOND, o.bysecond, p4);
    ListPartHandled(k3, BYEASTER, o.byeaster);
    assert AllPlain(p4) by { PlainIfEach(p4); }
  }

  /** The parser reads from the printed line exactly the arguments that the rule prints. */
  lemma ParsePrintedLine(rule: Rule)
    requires HasNames(rule)
    ensures ParseLine(PrintLine(rule)) == Ok(Printed(rule))
  {
    HeadPartsHandled(rule);
    var k1 := HandleParts(NO_ARGS, HeadParts(rule)).value;
    DayPartsHandled(rule.original, k1);
    var k2 := HandleParts(k1, DayParts(rule.original)).value;
    TimePartsHandled(rule.original, k2);
    hide HeadParts, DayParts, TimeParts, HandleParts, IsPlain, NonEmpty, PartTexts, Join, ParseLine, NO_ARGS;
    HandleAppend(NO_ARGS, HeadParts(rule), DayParts(rule.original) + TimeParts(rule.original), k1);
    HandleAppend(k1, DayParts(rule.original), TimeParts(rule.original), k2);
    assert Parts(rule) != [] by { SomePart(rule); }
    ParseOfParts(Parts(rule));
  }

  lemma SomePart(rule: Rule)
    requires HasNames(rule)
    ensures Parts(rule) != []
  {
    assert HeadParts(rule) != [];
  }

  /** Everything the caller names is a frequency or a weekday. */
  predicate NamesInRange(given: Args, firstweekday: int) {
    && InRange(firstweekday)
    && (given.freq.Some? ==> InRange(given.freq.value)) && (given.wkst.Some? ==> InRange(given.wkst.value))
    && (given.byweekday.Some? ==> forall w :: w in given.byweekday.value ==> InRange(w.weekday))
  }

  lemma RuleHasNames(given: Args, start: Start, firstweekday: int, rule: Rule)
    requires NamesInRange(given, firstweekday) && MakeRule(given, start, firstweekday) == Ok(rule)
    ensures HasNames(rule)
  {
    if given.byweekday.Some? {
      DaysInRange(rule.freq, given.byweekday.value);
      DaysOfLists(given, rule.freq, start);
      hide PlainDays, NumberedDays, Unnumbered, OrEmpty, MakeDays, MakeTimes;
    }
  }

  lemma DaysInRange(freq: int, days: seq<Wday>)
    requires forall w :: w in days ==> InRange(w.weekday)
    ensures forall w :: w in Unnumbered(PlainDays(freq, days)) + NumberedDays(freq, days) ==> InRange(w.weekday)
  {
    OrdersAreOrders();
    SelectMembers(Plain(freq), days);
    SelectMembers(Numbered(freq), days);
    SortedSetFacts(Weekdays(Select(Plain(freq), days)));
    Sorting.SortedIsAscending(WdayLess(), true, Select(Numbered(freq), days));
    forall w | w in Unnumbered(PlainDays(freq, days)) ensures InRange(w.weekday) {
      assert w.weekday in PlainDays(freq, days);
      assert w.weekday in Weekdays(Select(Plain(freq), days));
    }
  }

  /** The printed line, parsed and built with the same start, gives the rule back. The one part
      that a line cannot carry is a week start on Monday: the rule comes back unchanged exactly when
      it starts its weeks on another day, or Monday is also the calendar's default. */
  lemma RoundTrip(given: Args, start: Start, firstweekday: int, rule: Rule)
    requires ListsGiven(given) && NamesInRange(given, firstweekday)
    requires MakeRule(given, start, firstweekday) == Ok(rule)
    ensures HasNames(rule) && ParseLine(PrintLine(rule)).Ok?
    ensures var again := MakeRule(ParseLine(PrintLine(rule)).value, start, firstweekday);
            && again == Ok(rule.(wkst := if rule.wkst == 0 then firstweekday else rule.wkst))
            && (again == Ok(rule) <==> rule.wkst != 0 || firstweekday == 0)
  {
    RuleHasNames(given, start, firstweekday, rule);
    ParsePrintedLine(rule);
    RemakeRule(given, start, firstweekday, rule);
    hide MakeRule, ParseLine, PrintLine, Printed;
  }

  // Printing, step by step

  lemma {:induction false} PartTextsAppend(a: seq<Part>, b: seq<Part>)
    ensures PartTexts(a + b) == PartTexts(a) + PartTexts(b)
  {
  }

  /** `parts.append` of one part. */
  method AppendPart(parts: seq<string>, ghost done: seq<Part>, key: Key, value: string) returns (r: seq<string>)
    requires parts == PartTexts(done)
    ensures r == PartTexts(done + [Part(key, value)])
  {
    PartTextsAppend(done, [Part(key, value)]);
    hide NameOf;
    r := parts + [NameOf(key) + "=" + value];
  }

  /** The strings of a BY list; the weekday strings come from a loop of their own. */
  method WdayStrings(days: seq<Wday>) returns (strings: seq<string>)
    requires forall w :: w in days ==> InRange(w.weekday)
    ensures strings == seq(|days|, i requires 0 <= i < |days| => PrintDay(days[i]))
  {
    hide PrintDay, WeekdayName;
    strings := [];
    for i := 0 to |days|
      invariant |strings| == i && forall k :: 0 <= k < i ==> strings[k] == PrintDay(days[k])
    {
      strings := strings + [PrintDay(days[i])];
    }
  }

  function Strings(values: Option<seq<int>>): seq<string> {
    if values.None? then [] else seq(|values.value|, i requires 0 <= i < |values.value| => PrintInt(values.value[i]))
  }

  /** The names and lists that `__str__` goes through. */
  function Table(o: Original, wdays: seq<string>): seq<(Key, seq<string>)> {
    DayTable(o, wdays) + TimeTable(o)
  }

  function DayTable(o: Original, wdays: seq<string>): seq<(Key, seq<string>)> {
    [(BYSETPOS, Strings(o.bysetpos)), (BYMONTH, Strings(o.bymonth)), (BYMONTHDAY, Strings(o.bymonthday)),
     (BYYEARDAY, Strings(o.byyearday)), (BYWEEKNO, Strings(o.byweekno)), (BYDAY, wdays)]
  }

  function TimeTable(o: Original): seq<(Key, seq<string>)> {
    [(BYHOUR, Strings(o.byhour)), (BYMINUTE, Strings(o.byminute)), (BYSECOND, Strings(o.bysecond)),
     (BYEASTER, Strings(o.byeaster))]
  }

  function Row(row: (Key, seq<string>)): seq<Part> {
    if row.1 == [] then [] else [Part(row.0, Join(row.1, ','))]
  }

  function TableParts(table: seq<(Key, seq<string>)>): seq<Part> {
    if table == [] then [] else Row(table[0]) + TableParts(table[1..])
  }

  method AppendTable(parts: seq<string>, ghost done: seq<Part>, table: seq<(Key, seq<string>)>)
    returns (r: seq<string>)
    requires parts == PartTexts(done)
    ensures r == PartTexts(done + TableParts(table))
  {
    r := parts;
    ghost var so := done;
    hide PartTexts, Join;
    assert table[0..] == table;
    for i := 0 to |table|
      invariant r == PartTexts(so) && so + TableParts(table[i..]) == done + TableParts(table)
    {
      var (key, value) := table[i];
      assert table[i..][0] == table[i] && table[i..][1..] == table[i + 1..];
      if value != [] {
        r := AppendPart(r, so, key, Join(value, ','));
        so := so + [Part(key, Join(value, ','))];
      }
    }
    assert so + [] == so;
  }

  lemma TableIsParts(o: Original, wdays: seq<string>)
    requires o.byweekday.Some? ==> forall w :: w in o.byweekday.value ==> InRange(w.weekday)
    requires var days := if o.byweekday.None? then [] else o.byweekday.value;
             wdays == seq(|days|, i requires 0 <= i < |days| => PrintDay(days[i]))
    ensures TableParts(Table(o, wdays)) == DayParts(o) + TimeParts(o)
  {
    hide PrintDay, TableParts, DayParts, TimeParts, DayTable, TimeTable;
    TablePartsAppend(DayTable(o, wdays), TimeTable(o));
    DayTableParts(o, wdays);
    TimeTableParts(o);
  }

  lemma TableUnfolds(t: seq<(Key, seq<string>)>)
    ensures TableParts(t) == if t == [] then [] else Row(t[0]) + TableParts(t[1..])
  {
  }

  lemma {:induction false} TablePartsAppend(a: seq<(Key, seq<string>)>, b: seq<(Key, seq<string>)>)
    ensures TableParts(a + b) == TableParts(a) + TableParts(b)
  {
    hide Row, TableParts;
    TableUnfolds(a);
    if a == [] {
      assert a + b == b;
    } else {
      TablePartsAppend(a[1..], b);
      TableUnfolds(a + b);
      assert (a + b)[0] == a[0] && (a + b)[1..] == a[1..] + b;
    }
  }

  lemma TableRow(t: seq<(Key, seq<string>)>, i: nat)
    requires i < |t|
    ensures TableParts(t[i..]) == Row(t[i]) + TableParts(t[i + 1..])
  {
    assert t[i..][0] == t[i] && t[i..][1..] == t[i + 1..];
  }

  lemma NoRows(t: seq<(Key, seq<string>)>, rows: seq<Part>)
    ensures t[0..] == t && TableParts(t[|t|..]) == [] && rows + [] == rows
  {
  }

  lemma RowOfList(key: Key, values: Option<seq<int>>)
    ensures Row((key, Strings(values))) == ListPart(key, values)
  {
  }

  lemma DayTableParts(o: Original, wdays: seq<string>)
    requires o.byweekday.Some? ==> forall w :: w in o.byweekday.value ==> InRange(w.weekday)
    requires var days := if o.byweekday.None? then [] else o.byweekday.value;
             wdays == seq(|days|, i requires 0 <= i < |days| => PrintDay(days[i]))
    ensures TableParts(DayTable(o, wdays)) == DayParts(o)
  {
    assert Row((BYDAY, wdays)) == DayPart(o.byweekday);
    hide Row, TableParts, Strings, ListPart, DayPart, PrintDay;
    var t := DayTable(o, wdays);
    NoRows(t, DayPart(o.byweekday));
    TableRow(t, 5);
    TableRow(t, 4);
    TableRow(t, 3);
    TableRow(t, 2);
    TableRow(t, 1);
    TableRow(t, 0);
    RowOfList(BYSETPOS, o.bysetpos);
    RowOfList(BYMONTH, o.bymonth);
    RowOfList(BYMONTHDAY, o.bymonthday);
    RowOfList(BYYEARDAY, o.byyearday);
    RowOfList(BYWEEKNO, o.byweekno);
  }

  lemma TimeTableParts(o: Original)
    ensures TableParts(TimeTable(o)) == TimeParts(o)
  {
    hide Row, TableParts, Strings, ListPart;
    var t := TimeTable(o);
    NoRows(t, ListPart(BYEASTER, o.byeaster));
    TableRow(t, 3);
    TableRow(t, 2);
    TableRow(t, 1);
    TableRow(t, 0);
    RowOfList(BYHOUR, o.byhour);
    RowOfList(BYMINUTE, o.byminute);
    RowOfList(BYSECOND, o.bysecond);
    RowOfList(BYEASTER, o.byeaster);
  }

  /** `__str__`, without the DTSTART line. */
  method Str(rule: Rule) returns (line: string)
    requires HasNames(rule)
    ensures line == PrintLine(rule)
  {
    ghost var done: seq<Part> := [];
    assert PartTexts(done) == [];
    hide PartTexts, Join, FreqName, WeekdayName, PrintInt, PrintDay, TableParts, Table, DayParts, TimeParts;
    var parts := AppendPart([], done, FREQ, FreqName(rule.freq));
    done := done + [Part(FREQ, FreqName(rule.freq))];
    if rule.interval != 1 {
      parts := AppendPart(parts, done, INTERVAL, PrintInt(rule.interval));
      done := done + [Part(INTERVAL, PrintInt(rule.interval))];
    }
    if rule.wkst != 0 {
      parts := AppendPart(parts, done, WKST, WeekdayName(rule.wkst));
      done := done + [Part(WKST, WeekdayName(rule.wkst))];
    }
    if rule.count.Some? {
      parts := AppendPart(parts, done, COUNT, PrintInt(rule.count.value));
      done := done + [Part(COUNT, PrintInt(rule.count.value))];
    }
    assert done == HeadParts(rule);
    var o := rule.original;
    var wdays := WdayStrings(if o.byweekday.None? then [] else o.byweekday.value);
    TableIsParts(o, wdays);
    parts := AppendTable(parts, done, Table(o, wdays));
    line := "RRULE" + ":" + Join(parts, ';');
  }
}
