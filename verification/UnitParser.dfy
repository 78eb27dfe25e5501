/** Parsing unit files: sections, numbered entries, and the sockets of a socket unit in the order of the file. */
module UnitParser {
  import opened Splitting

  datatype Error =
    | SectionTooOften(name: string)
    | UnknownSocketAddr(addr: string)
    | SettingTooManyValues(name: string, values: seq<string>)
    | UnsupportedSetting(text: string)
    | UnusedSetting(key: string)
    | BadEnvironment(text: string)

  datatype Result<T> = Ok(value: T) | Err(error: Error)

  // ---------- text ----------

  /** The characters with the Unicode property White_Space. */
  predicate IsSpace(c: char) {
    || c == ' ' || '\t' <= c <= '\r' || c == '\U{85}' || c == '\U{A0}' || c == '\U{1680}' || '\U{2000}' <= c <= '\U{200A}'
    || c == '\U{2028}' || c == '\U{2029}' || c == '\U{202F}' || c == '\U{205F}' || c == '\U{3000}'
  }

  /** The conversion of keys to upper case; nothing here depends on what it does. */
  type Upper = string -> string

  function TrimStart(s: string): string {
    if s != "" && IsSpace(s[0]) then TrimStart(s[1..]) else s
  }

  function TrimEnd(s: string): string {
    if s != "" && IsSpace(s[|s| - 1]) then TrimEnd(s[..|s| - 1]) else s
  }

  function Trim(s: string): string {
    TrimEnd(TrimStart(s))
  }

  predicate AllSpace(s: string) {
    forall i :: 0 <= i < |s| ==> IsSpace(s[i])
  }

  /** Neither end is white space. */
  predicate Trimmed(s: string) {
    s != "" ==> !IsSpace(s[0]) && !IsSpace(s[|s| - 1])
  }

  lemma {:induction false} TrimStartPadded(a: string, s: string)
    requires AllSpace(a) && (s != "" ==> !IsSpace(s[0]))
    ensures TrimStart(a + s) == s
  {
    if a == "" {
      assert a + s == s;
    } else {
      TrimStartPadded(a[1..], s);
      assert (a + s)[1..] == a[1..] + s;
    }
  }

  lemma {:induction false} TrimEndPadded(s: string, b: string)
    requires AllSpace(b) && (s != "" ==> !IsSpace(s[|s| - 1]))
    ensures TrimEnd(s + b) == s
  {
    if b == "" {
      assert s + b == s;
    } else {
      var n := |b| - 1;
      TrimEndPadded(s, b[..n]);
      assert (s + b)[..|s| + n] == s + b[..n];
    }
  }

  /** Trimming takes away all white space around the text and nothing else. */
  lemma TrimPadded(a: string, s: string, b: string)
    requires AllSpace(a) && AllSpace(b) && Trimmed(s)
    ensures Trim(a + s + b) == s
  {
    if s == "" {
      TrimStartPadded(a + b, "");
      assert a + s + b == a + b + "";
    } else {
      TrimStartPadded(a, s + b);
      assert a + s + b == a + (s + b);
      TrimEndPadded(s, b);
    }
  }

  function DropEquals(s: string): string {
    if s != "" && s[0] == '=' then DropEquals(s[1..]) else s
  }

  predicate StartsWith(s: string, c: char) {
    s != "" && s[0] == c
  }

  // ---------- entries ----------

  /** A key with one of its values. */
  type Entry = (string, string)

  type Section = map<string, seq<(nat, string)>>

  function Tagged(name: string, values: seq<string>): seq<Entry> {
    seq(|values|, i requires 0 <= i < |values| => (name, values[i]))
  }

  predicate IsEntryLine(line: string) {
    !StartsWith(line, '#') && '=' in line
  }

  function Name(upper: Upper, line: string, pos: nat): string
    requires pos < |line|
  {
    upper(Trim(line[..pos]))
  }

  function Values(line: string, pos: nat): (values: seq<string>)
    requires pos < |line|
    ensures values != []
  {
    Split(Trim(DropEquals(line[pos..])), ',')
  }

  /** The entries of one line: its key with each of the comma-separated values; none for comments and other text. */
  ghost function EntriesOf(upper: Upper, line: string): seq<Entry> {
    if IsEntryLine(line) then Tagged(Name(upper, line, Position(line, '=')), Values(line, Position(line, '='))) else []
  }

  /** All entries of the section in the order of the file. */
  ghost function Entries(upper: Upper, lines: seq<string>): seq<Entry> {
    if lines == [] then [] else Entries(upper, lines[..|lines| - 1]) + EntriesOf(upper, lines[|lines| - 1])
  }

  /** The values as they are written, with commas between them. */
  function Commas(values: seq<string>): string
    requires values != []
  {
    Ended(values[..|values| - 1], ',') + values[|values| - 1]
  }

  predicate IsKey(key: string) {
    Trimmed(key) && '=' !in key && !StartsWith(key, '#')
  }

  /** White space may surround the key and the values, and further equals signs may follow the first. */
  predicate IsPadding(a: string, equals: string, b: string, c: string) {
    AllSpace(a) && AllSpace(b) && AllSpace(c) && equals != "" && forall i :: 0 <= i < |equals| ==> equals[i] == '='
  }

  lemma {:induction false} DropEqualsPadded(equals: string, s: string)
    requires (forall i :: 0 <= i < |equals| ==> equals[i] == '=') && !StartsWith(s, '=')
    ensures DropEquals(equals + s) == s
  {
    if equals == "" {
      assert equals + s == s;
    } else {
      DropEqualsPadded(equals[1..], s);
      assert (equals + s)[1..] == equals[1..] + s;
    }
  }

  /** A setting that is written to a line is read from it again: the key in upper case, with each of its values. */
  lemma SettingRoundTrip(upper: Upper, key: string, values: seq<string>, a: string, equals: string, b: string, c: string)
    requires IsKey(key) && IsPadding(a, equals, b, c) && (key == "" ==> !StartsWith(a, '#'))
    requires values != [] && (forall i :: 0 <= i < |values| ==> ',' !in values[i])
    requires Trimmed(Commas(values)) && !StartsWith(Commas(values), '=')
    ensures EntriesOf(upper, key + a + equals + b + Commas(values) + c) == Tagged(upper(key), values)
  {
    var text := Commas(values);
    var line := key + a + equals + b + text + c;
    var pos := |key| + |a|;
    assert line[..pos] == key + a && line[pos..] == equals + (b + text + c) && line[pos] == '=';
    assert '=' !in a by {
      assert !IsSpace('=');
    }
    PositionIs(line, '=', pos);
    assert !StartsWith(line, '#') by {
      assert !IsSpace('#');
      assert line[0] == if key != "" then key[0] else if a != "" then a[0] else '=';
    }
    KeyIsRead(key, a);
    ValuesAreRead(values, equals, b, c);
    hide Trim;
    hide Commas;
  }

  lemma {:induction false} PositionIs(s: string, c: char, pos: nat)
    requires pos < |s| && s[pos] == c && c !in s[..pos]
    ensures c in s && Position(s, c) == pos
  {
    if pos > 0 {
      assert s[0] in s[..pos] && s[1..][..pos - 1] == s[..pos][1..];
      PositionIs(s[1..], c, pos - 1);
    }
  }

  lemma KeyIsRead(key: string, a: string)
    requires Trimmed(key) && AllSpace(a)
    ensures Trim(key + a) == key
  {
    TrimPadded("", key, a);
    assert "" + key + a == key + a;
  }

  lemma ValuesAreRead(values: seq<string>, equals: string, b: string, c: string)
    requires IsPadding("", equals, b, c) && values != [] && (forall i :: 0 <= i < |values| ==> ',' !in values[i])
    requires Trimmed(Commas(values)) && !StartsWith(Commas(values), '=')
    ensures Split(Trim(DropEquals(equals + (b + Commas(values) + c))), ',') == values
  {
    var text := Commas(values);
    assert !IsSpace('=');
    assert !StartsWith(b + text + c, '=') by {
      if b + text + c != "" {
        assert (b + text + c)[0] == if b != "" then b[0] else if text != "" then text[0] else c[0];
      }
    }
    DropEqualsPadded(equals, b + text + c);
    TrimPadded(b, text, c);
    var n := |values| - 1;
    SplitIsUnique(values[..n], values[n], ',');
    assert values[..n] + [values[n]] == values;
  }

  /** The values of one key, each numbered by its place among all entries of the section. */
  ghost function Bucket(entries: seq<Entry>, key: string): seq<(nat, string)> {
    if entries == [] then []
    else
      var n := |entries| - 1;
      Bucket(entries[..n], key) + if entries[n].0 == key then [(n, entries[n].1)] else []
  }

  ghost predicate IsSectionOf(section: Section, entries: seq<Entry>) {
    && (forall key :: key in section <==> Bucket(entries, key) != [])
    && (forall key :: key in section ==> section[key] == Bucket(entries, key))
  }

  lemma {:induction false} BucketOfTagged(entries: seq<Entry>, name: string, values: seq<string>, key: string)
    requires key != name
    ensures Bucket(entries + Tagged(name, values), key) == Bucket(entries, key)
  {
    if values == [] {
      assert entries + Tagged(name, values) == entries;
    } else {
      var n := |values| - 1;
      BucketOfTagged(entries, name, values[..n], key);
      assert (entries + Tagged(name, values))[..|entries| + n] == entries + Tagged(name, values[..n]);
    }
  }

  lemma BucketOfOneMore(entries: seq<Entry>, name: string, values: seq<string>, j: nat)
    requires j < |values|
    ensures var more := entries + Tagged(name, values[..j]);
      Bucket(entries + Tagged(name, values[..j + 1]), name) == Bucket(more, name) + [(|more|, values[j])]
  {
    var more := entries + Tagged(name, values[..j]);
    var all := entries + Tagged(name, values[..j + 1]);
    assert all[..|all| - 1] == more && all[|all| - 1] == (name, values[j]);
  }

  /** A key that is inserted with its bucket keeps the section right. */
  lemma SectionAfterLine(section: Section, entries: seq<Entry>, name: string, values: seq<string>)
    requires IsSectionOf(section, entries) && values != []
    ensures var more := entries + Tagged(name, values); IsSectionOf(section[name := Bucket(more, name)], more)
  {
    var more := entries + Tagged(name, values);
    forall key | key != name ensures Bucket(more, key) == Bucket(entries, key) {
      BucketOfTagged(entries, name, values, key);
    }
    var n := |values| - 1;
    BucketOfOneMore(entries, name, values, n);
    assert values[..n + 1] == values;
  }

  lemma {:induction false} EntriesGrow(upper: Upper, lines: seq<string>, i: nat)
    requires i < |lines|
    ensures Entries(upper, lines[..i + 1]) == Entries(upper, lines[..i]) + EntriesOf(upper, lines[i])
    ensures |Entries(upper, lines[..i + 1])| <= |Entries(upper, lines)|
    decreases |lines| - i
  {
    assert lines[..i + 1][..i] == lines[..i];
    if i + 1 < |lines| {
      EntriesGrow(upper, lines, i + 1);
    } else {
      assert lines[..i + 1] == lines;
    }
  }

  lemma LookUp(section: Section, entries: seq<Entry>, name: string)
    requires IsSectionOf(section, entries)
    ensures Bucket(entries + Tagged(name, []), name) == if name in section then section[name] else []
  {
    assert entries + Tagged(name, []) == entries;
  }

  lemma LinesBegin(upper: Upper, lines: seq<string>)
    ensures IsSectionOf(map[], Entries(upper, lines[..0])) && Entries(upper, lines[..0]) == []
  {
  }

  /** The values of one line get the next numbers and go to the end of the bucket of their key. */
  method PushValues(vec: seq<(nat, string)>, entryNumber: nat, name: string, values: seq<string>, ghost before: seq<Entry>)
    returns (vec': seq<(nat, string)>, entryNumber': nat)
    requires entryNumber == |before| && vec == Bucket(before + Tagged(name, []), name)
    requires |before| + |values| < 0x1_0000_0000
    ensures vec' == Bucket(before + Tagged(name, values), name)
    ensures entryNumber' == |before| + |values|
  {
    hide Bucket;
    vec', entryNumber' := vec, entryNumber;
    for j := 0 to |values|
      invariant vec' == Bucket(before + Tagged(name, values[..j]), name)
      invariant entryNumber' == |before| + j < 0x1_0000_0000
    {
      BucketOfOneMore(before, name, values, j);
      vec' := vec' + [(entryNumber', values[j])];
      entryNumber' := entryNumber' + 1;
    }
    assert values[..|values|] == values;
  }

  /** The counter is a u32, so a section may have fewer than 2^32 values. */
  method ParseSection(upper: Upper, lines: seq<string>) returns (section: Section)
    requires |Entries(upper, lines)| < 0x1_0000_0000
    ensures IsSectionOf(section, Entries(upper, lines))
  {
    hide IsSectionOf;
    hide Entries;
    hide Name;
    hide Values;
    section := map[];
    LinesBegin(upper, lines);
    var entryNumber: nat := 0;
    for i := 0 to |lines|
      invariant IsSectionOf(section, Entries(upper, lines[..i]))
      invariant entryNumber == |Entries(upper, lines[..i])| < 0x1_0000_0000
    {
      var line := lines[i];
      EntriesGrow(upper, lines, i);
      ghost var before := Entries(upper, lines[..i]);
      if StartsWith(line, '#') {
        assert before + [] == before;
        continue;
      }
      if '=' !in line {
        assert before + [] == before;
        continue;
      }
      var pos := Position(line, '=');
      hide EntriesOf;
      var name, values := Name(upper, line, pos), Values(line, pos);
      LookUp(section, before, name);
      var vec := if name in section then section[name] else [];
      SectionAfterLine(section, before, name, values);
      vec, entryNumber := PushValues(vec, entryNumber, name, values, before);
      section := section[name := vec];
    }
    assert lines[..|lines|] == lines;
  }

  /** A numbered value stands under a key exactly when that key and value are the entry with that number. */
  lemma {:induction false} BucketHolds(entries: seq<Entry>, key: string, x: (nat, string))
    ensures x in Bucket(entries, key) <==> x.0 < |entries| && entries[x.0] == (key, x.1)
  {
    if entries != [] {
      BucketHolds(entries[..|entries| - 1], key, x);
    }
  }

  /** Every number from 0 to n-1 is used once over all keys, and restoring their order restores the file's order. */
  lemma NumbersArePlaces(section: Section, entries: seq<Entry>, key: string, x: (nat, string))
    requires IsSectionOf(section, entries)
    ensures key in section && x in section[key] <==> x.0 < |entries| && entries[x.0] == (key, x.1)
  {
    BucketHolds(entries, key, x);
  }

  // ---------- sections ----------

  /** A header with the lines up to the next header. */
  type RawSection = (string, seq<string>)

  predicate IsHeader(line: string) {
    line != "" && line[0] == '['
  }

  /** The sections of the lines in their order; lines before the first header belong to none. */
  function RawSections(lines: seq<string>): seq<RawSection> {
    if lines == [] then []
    else
      var n := |lines| - 1;
      var before := RawSections(lines[..n]);
      if IsHeader(lines[n]) then before + [(lines[n], [])]
      else if before == [] then []
      else before[|before| - 1 := (before[|before| - 1].0, before[|before| - 1].1 + [lines[n]])]
  }

  predicate HasHeader(lines: seq<string>) {
    exists i :: 0 <= i < |lines| && IsHeader(lines[i])
  }

  predicate HeadersDiffer(raw: seq<RawSection>) {
    forall i, j :: 0 <= i < j < |raw| ==> raw[i].0 != raw[j].0
  }

  ghost predicate Countable(upper: Upper, raw: seq<RawSection>) {
    forall i :: 0 <= i < |raw| ==> |Entries(upper, raw[i].1)| < 0x1_0000_0000
  }

  predicate OccursIn(raw: seq<RawSection>, name: string) {
    exists i :: 0 <= i < |raw| && raw[i].0 == name
  }

  /** The file holds exactly the given sections, each one parsed. */
  ghost predicate IsFileOf(upper: Upper, file: map<string, Section>, raw: seq<RawSection>) {
    && (forall name :: name in file <==> OccursIn(raw, name))
    && (forall i :: 0 <= i < |raw| ==> raw[i].0 in file && IsSectionOf(file[raw[i].0], Entries(upper, raw[i].1)))
  }

  function TrimAll(lines: seq<string>): seq<string> {
    seq(|lines|, i requires 0 <= i < |lines| => Trim(lines[i]))
  }

  /** The lines of the sections, each with its header first. */
  function LinesOf(raw: seq<RawSection>): seq<string> {
    if raw == [] then []
    else LinesOf(raw[..|raw| - 1]) + [raw[|raw| - 1].0] + raw[|raw| - 1].1
  }

  predicate IsRaw(raw: seq<RawSection>) {
    forall i :: 0 <= i < |raw| ==> IsHeader(raw[i].0) && forall j :: 0 <= j < |raw[i].1| ==> !IsHeader(raw[i].1[j])
  }

  lemma {:induction false} BodyIsRead(lines: seq<string>, done: seq<RawSection>, name: string, body: seq<string>)
    requires RawSections(lines) == done && IsHeader(name) && forall j :: 0 <= j < |body| ==> !IsHeader(body[j])
    ensures RawSections(lines + [name] + body) == done + [(name, body)]
  {
    var all := lines + [name] + body;
    var n := |all| - 1;
    if body == [] {
      assert all[..n] == lines && all[n] == name;
    } else {
      var m := |body| - 1;
      BodyIsRead(lines, done, name, body[..m]);
      assert all[..n] == lines + [name] + body[..m] && all[n] == body[m];
      assert body[..m] + [body[m]] == body;
      assert (done + [(name, body[..m])])[|done| := (name, body)] == done + [(name, body)];
    }
  }

  lemma {:induction false} SectionsAreRead(raw: seq<RawSection>)
    requires IsRaw(raw)
    ensures RawSections(LinesOf(raw)) == raw
  {
    if raw != [] {
      var n := |raw| - 1;
      SectionsAreRead(raw[..n]);
      BodyIsRead(LinesOf(raw[..n]), raw[..n], raw[n].0, raw[n].1);
      assert raw[..n] + [raw[n]] == raw;
    }
  }

  /** Sections that are written to a file, line by line, are found in it again, each with its lines. */
  lemma FileRoundTrip(raw: seq<RawSection>)
    requires IsRaw(raw) && raw != []
    requires forall i :: 0 <= i < |LinesOf(raw)| ==> Trimmed(LinesOf(raw)[i]) && '\n' !in LinesOf(raw)[i]
    ensures var lines := LinesOf(raw); var n := |lines| - 1;
      n >= 0 && RawSections(TrimAll(Split(Ended(lines[..n], '\n') + lines[n], '\n'))) == raw
  {
    SectionsAreRead(raw);
    var lines := LinesOf(raw);
    hide LinesOf;
    var n := |lines| - 1;
    SplitIsUnique(lines[..n], lines[n], '\n');
    assert lines[..n] + [lines[n]] == lines;
    forall i | 0 <= i < |lines| ensures Trim(lines[i]) == lines[i] {
      KeyIsRead(lines[i], "");
      assert lines[i] + "" == lines[i];
    }
    hide Trim;
    assert TrimAll(lines) == lines;
  }

  /** A section that the next header has closed does not change any more. */
  lemma {:induction false} ClosedStay(lines: seq<string>, k: nat)
    requires k < |lines| && IsHeader(lines[k])
    ensures RawSections(lines[..k]) < RawSections(lines)
    ensures RawSections(lines[..k + 1]) == RawSections(lines[..k]) + [(lines[k], [])]
  {
    assert lines[..k + 1][..k] == lines[..k];
    var n := |lines| - 1;
    if k < n {
      ClosedStay(lines[..n], k);
      assert lines[..n][..k] == lines[..k];
    } else {
      assert lines[..k + 1] == lines;
    }
  }

  lemma BodyGrows(lines: seq<string>, k: nat, done: seq<RawSection>, name: string, body: seq<string>)
    requires k < |lines| && !IsHeader(lines[k]) && RawSections(lines[..k]) == done + [(name, body)]
    ensures RawSections(lines[..k + 1]) == done + [(name, body + [lines[k]])]
  {
    assert lines[..k + 1][..k] == lines[..k];
  }

  lemma OccursInMore(raw: seq<RawSection>, last: RawSection, name: string)
    ensures OccursIn(raw + [last], name) <==> OccursIn(raw, name) || last.0 == name
  {
    var more := raw + [last];
    assert more[|raw|] == last;
    if OccursIn(raw, name) {
      var i :| 0 <= i < |raw| && raw[i].0 == name;
      assert more[i].0 == name;
    }
  }

  lemma FileWithOneMore(upper: Upper, file: map<string, Section>, raw: seq<RawSection>, name: string, body: seq<string>, section: Section)
    requires HeadersDiffer(raw) && IsFileOf(upper, file, raw) && name !in file && IsSectionOf(section, Entries(upper, body))
    ensures HeadersDiffer(raw + [(name, body)]) && IsFileOf(upper, file[name := section], raw + [(name, body)])
  {
    hide IsSectionOf;
    forall x ensures OccursIn(raw + [(name, body)], x) <==> OccursIn(raw, x) || name == x {
      OccursInMore(raw, (name, body), x);
    }
    hide OccursIn;
  }

  /** The lines of a section are complete: parse and store it, unless its header was there before. */
  method CloseSection(upper: Upper, sections: map<string, Section>, name: string, body: seq<string>, ghost done: seq<RawSection>)
    returns (ok: bool, sections': map<string, Section>)
    requires HeadersDiffer(done) && IsFileOf(upper, sections, done) && |Entries(upper, body)| < 0x1_0000_0000
    ensures ok ==> HeadersDiffer(done + [(name, body)]) && IsFileOf(upper, sections', done + [(name, body)])
    ensures !ok ==> OccursIn(done, name)
  {
    if name in sections {
      return false, sections;
    }
    var section := ParseSection(upper, body);
    FileWithOneMore(upper, sections, done, name, body, section);
    return true, sections[name := section];
  }

  /** The first header that is there twice, found when its second section ends. */
  ghost predicate FirstTwice(raw: seq<RawSection>, name: string) {
    exists j :: 0 <= j < |raw| && raw[j].0 == name && HeadersDiffer(raw[..j]) && OccursIn(raw[..j], name)
  }

  /** A file without any header makes the original panic, so there has to be one. */
  method ParseFile(upper: Upper, content: string) returns (r: Result<map<string, Section>>)
    requires HasHeader(TrimAll(Split(content, '\n')))
    requires Countable(upper, RawSections(TrimAll(Split(content, '\n'))))
    ensures var raw := RawSections(TrimAll(Split(content, '\n')));
      match r
      case Ok(file) => HeadersDiffer(raw) && IsFileOf(upper, file, raw)
      case Err(e) => e.SectionTooOften? && FirstTwice(raw, e.name)
  {
    hide IsFileOf;
    hide HeadersDiffer;
    hide FirstTwice;
    hide Countable;
    hide OccursIn;
    hide Split;
    hide Trim;
    var lines := TrimAll(Split(content, '\n'));
    ghost var raw := RawSections(lines);
    hide TrimAll;
    var k := SkipToHeader(lines);
    ClosedStay(lines, k);
    hide RawSections;
    var sections: map<string, Section> := map[];
    ghost var done: seq<RawSection> := [];
    NoSections(upper);
    var name, body := lines[k], [];
    k := k + 1;
    while k < |lines|
      invariant k <= |lines|
      invariant RawSections(lines[..k]) == done + [(name, body)]
      invariant HeadersDiffer(done) && IsFileOf(upper, sections, done)
      decreases |lines| - k
    {
      var line := lines[k];
      if StartsWith(line, '[') {
        ClosedStay(lines, k);
        BodyCountable(upper, raw, done, name, body);
        var ok;
        ok, sections := CloseSection(upper, sections, name, body, done);
        if !ok {
          FoundTwice(raw, done, name, body);
          return Err(SectionTooOften(name));
        }
        done := done + [(name, body)];
        name, body := line, [];
      } else {
        BodyGrows(lines, k, done, name, body);
        body := body + [line];
      }
      k := k + 1;
    }
    assert lines[..k] == lines;
    BodyCountable(upper, raw, done, name, body);
    var ok;
    ok, sections := CloseSection(upper, sections, name, body, done);
    if !ok {
      FoundTwice(raw, done, name, body);
      return Err(SectionTooOften(name));
    }
    return Ok(sections);
  }

  lemma NoSections(upper: Upper)
    ensures HeadersDiffer([]) && IsFileOf(upper, map[], [])
  {
  }

  lemma BodyCountable(upper: Upper, raw: seq<RawSection>, done: seq<RawSection>, name: string, body: seq<string>)
    requires Countable(upper, raw) && done + [(name, body)] <= raw
    ensures |Entries(upper, body)| < 0x1_0000_0000
  {
    assert raw[|done|] == (done + [(name, body)])[|done|];
  }

  lemma FoundTwice(raw: seq<RawSection>, done: seq<RawSection>, name: string, body: seq<string>)
    requires done + [(name, body)] <= raw && HeadersDiffer(done) && OccursIn(done, name)
    ensures FirstTwice(raw, name)
  {
    var j := |done|;
    assert raw[j] == (done + [(name, body)])[j];
    assert raw[..j] == done;
  }

  /** Lines before the first section are dropped. */
  method SkipToHeader(lines: seq<string>) returns (k: nat)
    requires HasHeader(lines)
    ensures k < |lines| && IsHeader(lines[k]) && RawSections(lines[..k]) == []
  {
    k := 0;
    ghost var i :| 0 <= i < |lines| && IsHeader(lines[i]);
    while !StartsWith(lines[k], '[')
      invariant k <= i < |lines| && RawSections(lines[..k]) == []
      decreases i - k
    {
      assert lines[..k + 1][..k] == lines[..k];
      k := k + 1;
    }
  }
}
