/** Lines of the CDR file: how a record is written and how a line is read. */
module CdrText {
  import opened Sessions

  datatype CdrRecord = CdrRecord(imsi: string, action: string, timestamp: string)

  /** The text of a record; `asctime` ends the timestamp with a newline. */
  function Line(r: CdrRecord): string {
    r.imsi + ", " + r.action + ", " + r.timestamp + "\n"
  }

  // ----- Reading -----

  /** What `getline` extracts up to a delimiter, and what it leaves. */
  function UpTo(s: string, c: char): string {
    if s == "" || s[0] == c then "" else [s[0]] + UpTo(s[1..], c)
  }

  function Beyond(s: string, c: char): (rest: string)
    ensures s != "" ==> |rest| < |s|
  {
    if s == "" then "" else if s[0] == c then s[1..] else Beyond(s[1..], c)
  }

  predicate Blank(c: char) {
    c == ' ' || c == '\t'
  }

  function TrimLeft(s: string): string {
    if s != "" && Blank(s[0]) then TrimLeft(s[1..]) else s
  }

  function TrimRight(s: string): string {
    if s != "" && Blank(s[|s| - 1]) then TrimRight(s[..|s| - 1]) else s
  }

  function Trim(s: string): string {
    TrimRight(TrimLeft(s))
  }

  /** The first `n` comma-separated parts of a line, trimmed. */
  function Fields(line: string, n: nat): (fs: seq<string>)
    ensures |fs| <= n
    decreases n
  {
    if line == "" || n == 0 then [] else [Trim(UpTo(line, ','))] + Fields(Beyond(line, ','), n - 1)
  }

  function FieldAt(fs: seq<string>, i: nat): string {
    if i < |fs| then fs[i] else ""
  }

  function RecordOf(fs: seq<string>): CdrRecord {
    CdrRecord(FieldAt(fs, 0), FieldAt(fs, 1), FieldAt(fs, 2))
  }

  function ParsedLine(line: string): CdrRecord {
    RecordOf(Fields(line, 3))
  }

  /** The loop over the parts of a line. */
  method ParseLine(line: string) returns (record: CdrRecord)
    ensures record == ParsedLine(line)
  {
    var imsi, action, timestamp := "", "", "";
    var rest, partIndex := line, 0;
    while rest != "" && partIndex < 3
      invariant 0 <= partIndex <= 3
      invariant ParsedLine(line)
                == match partIndex
                   case 0 => RecordOf(Fields(rest, 3))
                   case 1 => CdrRecord(imsi, FieldAt(Fields(rest, 2), 0), FieldAt(Fields(rest, 2), 1))
                   case 2 => CdrRecord(imsi, action, FieldAt(Fields(rest, 1), 0))
                   case _ => CdrRecord(imsi, action, timestamp)
      invariant partIndex < 1 ==> imsi == ""
      invariant partIndex < 2 ==> action == ""
      invariant partIndex < 3 ==> timestamp == ""
      decreases 3 - partIndex
    {
      var part := Trim(UpTo(rest, ','));
      rest := Beyond(rest, ',');
      match partIndex {
        case 0 => imsi := part;
        case 1 => action := part;
        case _ => timestamp := part;
      }
      partIndex := partIndex + 1;
    }
    record := CdrRecord(imsi, action, timestamp);
  }

  // ----- What survives -----

  /** A text that comes back from a line as it went in. */
  predicate CleanField(s: string) {
    && ',' !in s && '\n' !in s
    && (s != "" ==> s[0] != ' ' && s[0] != '\t' && s[|s| - 1] != ' ' && s[|s| - 1] != '\t')
  }

  predicate CleanRecord(r: CdrRecord) {
    CleanField(r.imsi) && CleanField(r.action) && CleanField(r.timestamp)
  }

  lemma {:induction false} UpToAtDelimiter(a: string, b: string, c: char)
    requires c !in a
    ensures UpTo(a + [c] + b, c) == a && Beyond(a + [c] + b, c) == b
  {
    if a == "" {
      assert a + [c] + b == [c] + b;
    } else {
      assert (a + [c] + b)[1..] == a[1..] + [c] + b;
      UpToAtDelimiter(a[1..], b, c);
    }
  }

  lemma {:induction false} UpToEnd(a: string, c: char)
    requires c !in a
    ensures UpTo(a, c) == a
  {
    if a != "" { UpToEnd(a[1..], c); }
  }

  lemma {:induction false} UpToOmits(s: string, c: char)
    ensures c !in UpTo(s, c)
    ensures forall d :: d in UpTo(s, c) || d in Beyond(s, c) ==> d in s
  {
    if s != "" && s[0] != c { UpToOmits(s[1..], c); }
  }

  /** A delimiter inside the first part hides everything behind that part. */
  lemma {:induction false} UpToInside(a: string, b: string, c: char)
    requires c in a
    ensures UpTo(a + b, c) == UpTo(a, c)
  {
    if a[0] != c {
      assert (a + b)[1..] == a[1..] + b;
      UpToInside(a[1..], b, c);
    }
  }

  lemma {:induction false} TrimLeftShape(s: string)
    ensures var t := TrimLeft(s);
            (t == "" || !Blank(t[0])) && (forall d :: d in t ==> d in s)
            && (s != "" && !Blank(s[|s| - 1]) ==> t != "" && t[|t| - 1] == s[|s| - 1])
  {
    if s != "" && Blank(s[0]) {
      TrimLeftShape(s[1..]);
    }
  }

  lemma {:induction false} TrimRightShape(s: string)
    ensures var t := TrimRight(s);
            (t == "" || !Blank(t[|t| - 1])) && (forall d :: d in t ==> d in s)
            && (s != "" && !Blank(s[0]) ==> t != "" && t[0] == s[0])
  {
    if s != "" && Blank(s[|s| - 1]) {
      TrimRightShape(s[..|s| - 1]);
    }
  }

  lemma TrimmedPartIsClean(s: string)
    requires '\n' !in s
    ensures CleanField(Trim(UpTo(s, ',')))
  {
    UpToOmits(s, ',');
    TrimLeftShape(UpTo(s, ','));
    TrimRightShape(TrimLeft(UpTo(s, ',')));
  }

  lemma {:induction false} FieldsAreClean(line: string, n: nat)
    requires '\n' !in line
    ensures forall f :: f in Fields(line, n) ==> CleanField(f)
    decreases n
  {
    if line != "" && n > 0 {
      TrimmedPartIsClean(line);
      UpToOmits(line, ',');
      FieldsAreClean(Beyond(line, ','), n - 1);
    }
  }

  lemma TrimClean(s: string)
    requires CleanField(s)
    ensures Trim(" " + s) == s && Trim(s) == s
  {
    assert TrimLeft(s) == s && TrimRight(s) == s;
    assert (" " + s)[0] == ' ' && (" " + s)[1..] == s;
    assert TrimLeft(" " + s) == TrimLeft(s);
  }

  lemma LineText(r: CdrRecord)
    requires CleanRecord(r)
    ensures UpTo(Line(r), '\n') == r.imsi + [','] + (" " + r.action + [','] + (" " + r.timestamp))
  {
    var text := r.imsi + ", " + r.action + ", " + r.timestamp;
    assert Line(r) == text + ['\n'] + "";
    UpToAtDelimiter(text, "", '\n');
    assert text == r.imsi + [','] + (" " + r.action + [','] + (" " + r.timestamp));
  }

  lemma CleanComesBack(r: CdrRecord)
    requires CleanRecord(r)
    ensures ParsedLine(UpTo(Line(r), '\n')) == r
  {
    var last := " " + r.timestamp;
    var middle := " " + r.action + [','] + last;
    var whole := r.imsi + [','] + middle;
    LineText(r);
    UpToAtDelimiter(r.imsi, middle, ',');
    UpToAtDelimiter(" " + r.action, last, ',');
    UpToEnd(last, ',');
    TrimClean(r.imsi);
    TrimClean(r.action);
    TrimClean(r.timestamp);
    assert Fields(last, 1) == [r.timestamp];
    assert Fields(middle, 2) == [r.action] + Fields(last, 1);
    assert Fields(whole, 3) == [r.imsi] + Fields(middle, 2);
  }

  /** Writing a line and parsing it are inverse on a record iff its fields hold no
      comma, no newline and no surrounding blanks. */
  lemma LineRoundTripExactly(r: CdrRecord)
    ensures ParsedLine(UpTo(Line(r), '\n')) == r <==> CleanRecord(r)
  {
    if CleanRecord(r) {
      CleanComesBack(r);
    } else {
      UpToOmits(Line(r), '\n');
      FieldsAreClean(UpTo(Line(r), '\n'), 3);
    }
  }

  lemma {:induction false} UpToPast(a: string, b: string, c: char)
    requires c !in a
    ensures UpTo(a + b, c) == a + UpTo(b, c)
  {
    if a == "" {
      assert a + b == b;
    } else {
      assert (a + b)[1..] == a[1..] + b;
      UpToPast(a[1..], b, c);
    }
  }

  lemma LineHead(r: CdrRecord)
    requires CleanField(r.imsi) && CleanField(r.action)
    ensures UpTo(Line(r), '\n')
            == r.imsi + [','] + (" " + r.action + [','] + (" " + UpTo(r.timestamp + "\n", '\n')))
  {
    var head, tail := r.imsi + ", " + r.action + ", ", r.timestamp + "\n";
    assert Line(r) == head + tail;
    UpToPast(head, tail, '\n');
    assert head + UpTo(tail, '\n') == r.imsi + [','] + (" " + r.action + [','] + (" " + UpTo(tail, '\n')));
  }

  lemma TwoFields(a: string, b: string, last: string)
    requires CleanField(a) && CleanField(b)
    ensures var fs := Fields(a + [','] + (" " + b + [','] + last), 3);
            FieldAt(fs, 0) == a && FieldAt(fs, 1) == b
  {
    var middle := " " + b + [','] + last;
    UpToAtDelimiter(a, middle, ',');
    UpToAtDelimiter(" " + b, last, ',');
    TrimClean(a);
    TrimClean(b);
    assert Fields(middle, 2) == [b] + Fields(last, 1);
  }

  /** Whatever the time stamp, clean other fields come back. */
  lemma FirstFieldsComeBack(r: CdrRecord)
    requires CleanField(r.imsi) && CleanField(r.action)
    ensures var back := ParsedLine(UpTo(Line(r), '\n')); back.imsi == r.imsi && back.action == r.action
  {
    LineHead(r);
    TwoFields(r.imsi, r.action, " " + UpTo(r.timestamp + "\n", '\n'));
  }

  function ActionText(a: Action): string {
    match a
    case CREATED => "CREATED"
    case DELETED => "DELETED"
    case REJECTED => "REJECTED"
    case ERROR => "ERROR"
  }

  lemma ActionTextIsClean(a: Action)
    ensures CleanField(ActionText(a))
  {
    match a
    case CREATED => assert |ActionText(a)| == 7;
    case DELETED => assert |ActionText(a)| == 7;
    case REJECTED => assert |ActionText(a)| == 8;
    case ERROR => assert |ActionText(a)| == 5;
  }

  /** What the session manager writes is clean. */
  lemma ManagerRecordsAreClean(imsi: Imsi, a: Action, timestamp: string)
    requires IsValidImsi(imsi) && CleanField(timestamp)
    ensures CleanRecord(CdrRecord(imsi, ActionText(a), timestamp))
  {
    ActionTextIsClean(a);
  }
}
