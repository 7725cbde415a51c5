/** trustlist.c: what the reader makes of any trust list text, the lines that marking a root
    certificate appends, and that reading them back gives the user's answer. */
module Trustlist {
  import opened Common
  import opened Sexp
  import opened Convert

  // ---------- one line ----------

  predicate IsBlank(c: char) {
    c == ' ' || c == '\t'
  }

  function SkipBlanks(s: Octets): (r: Octets)
    ensures |r| <= |s| && (r != "" ==> !IsBlank(r[0]))
  {
    if s != "" && IsBlank(s[0]) then SkipBlanks(s[1..]) else s
  }

  /** A fingerprint with its flags. */
  datatype Item = Item(fpr: Octets, disabled: bool, pgp: bool, smime: bool, relax: bool, cm: bool)

  /** strcspn for the end of a flag name. */
  function NameLength(s: Octets): (n: nat)
    ensures n <= |s|
    ensures s != "" && !IsBlank(s[0]) && s[0] != '=' ==> n > 0
  {
    if s == "" || s[0] == '=' || IsBlank(s[0]) then 0 else 1 + NameLength(s[1..])
  }

  /** The further flags; assigning a value to one is an error that does not end the line. */
  function Flags(s: Octets, item: Item, err: bool): (Item, bool)
    decreases |s|
  {
    var p := SkipBlanks(s);
    if p == "" then (item, err)
    else
      var n := NameLength(p);
      if n < |p| && p[n] == '=' then Flags(p[n + 1..], item, true)
      else if p[..n] == "relax" then Flags(p[n..], item.(relax := true), err)
      else if p[..n] == "cm" then Flags(p[n..], item.(cm := true), err)
      else Flags(p[n..], item, err)
  }

  /** The first flag: use for PGP and for S/MIME. */
  function FirstFlag(s: Octets): Option<(bool, bool)> {
    if s == "" || s[0] == '*' then Some((true, true))
    else if s[0] == 'P' || s[0] == 'p' then Some((true, false))
    else if s[0] == 'S' || s[0] == 's' then Some((false, true))
    else None
  }

  datatype Line = Ignored | Include | Bad | Entry(item: Item, err: bool)

  const INCLUDE := "include-default"
  const FPR_LEN := 20

  function ParseLine(line: Octets): Line {
    var p := SkipBlanks(line);
    if p == "" || p[0] == '#' then Ignored
    else if INCLUDE <= p && (|p| == |INCLUDE| || IsBlank(p[|INCLUDE|])) then Include
    else ParseEntry(p)
  }

  function ParseEntry(p: Octets): (r: Line)
    requires p != ""
    ensures r.Bad? || r.Entry?
  {
    var disabled := p[0] == '!';
    match HexColon(if disabled then SkipBlanks(p[1..]) else p, FPR_LEN)
    case None => Bad
    case Some((fpr, r)) =>
      var q := SkipBlanks(r);
      match FirstFlag(q)
      case None => Bad
      case Some((pgp, smime)) =>
        var more := Advance(q, 1);
        if more != "" && !IsBlank(more[0]) then Bad
        else
          var (item, err) := Flags(more, Item(fpr, disabled, pgp, smime, false, false), false);
          Entry(item, err)
  }

  // ---------- a file ----------

  /** The line buffer holds 254 characters, the line feed included. */
  const MAX_LINE := 253

  function FirstLf(s: Octets): (n: nat)
    ensures n <= |s| && (n < |s| ==> s[n] == '\n') && (forall i | 0 <= i < n :: s[i] != '\n')
  {
    if s == "" || s[0] == '\n' then 0 else 1 + FirstLf(s[1..])
  }

  /** What is behind the first line feed. */
  function AfterLine(s: Octets): (r: Octets)
    ensures s != "" ==> |r| < |s|
  {
    Advance(s, FirstLf(s) + 1)
  }

  /** The table so far and whether there was an error. */
  datatype State = State(table: seq<Item>, err: bool)

  /** The loop of read_one_trustfile.  `etc` is the system's list if an include statement can
      find one, which has to be a different file. */
  function ReadLines(s: Octets, allow: bool, etc: Option<Octets>, st: State): State
    decreases allow, |s|, 1
  {
    if s == "" then st else ReadLines(AfterLine(s), allow, etc, FileStep(s, allow, etc, st))
  }

  /** The first line of s, which has to be complete and not too long. */
  function FileStep(s: Octets, allow: bool, etc: Option<Octets>, st: State): State
    requires s != ""
    decreases allow, |s|, 0
  {
    var n := FirstLf(s);
    if n == |s| || n > MAX_LINE then st.(err := true) else LineStep(s[..n], allow, etc, st)
  }

  /** What one line does. */
  function LineStep(line: Octets, allow: bool, etc: Option<Octets>, st: State): State
    decreases allow, 0, 0
  {
    match ParseLine(line)
    case Ignored => st
    case Bad => st.(err := true)
    case Entry(item, err) => State(st.table + [item], st.err || err)
    case Include =>
      if allow && etc.Some? then
        var inner := ReadLines(etc.value, false, None, State(st.table, false));
        State(inner.table, st.err || inner.err)
      else st
  }

  /** read_trustfiles: the table, or nothing on an error.  Without a list of one's own the
      system's is read, and without that the table is empty. */
  function Load(home: Option<Octets>, etc: Option<Octets>): Option<seq<Item>> {
    var st :=
      if home.Some? then ReadLines(home.value, true, etc, State([], false))
      else if etc.Some? then ReadLines(etc.value, false, None, State([], false))
      else State([], false);
    if st.err then None else Some(st.table)
  }

  datatype Answer = Trusted | NotTrusted(disabled: bool)

  /** The first item with this fingerprint decides. */
  function Lookup(table: seq<Item>, fpr: Octets): Answer {
    if table == [] then NotTrusted(false)
    else if table[0].fpr == fpr then if table[0].disabled then NotTrusted(true) else Trusted
    else Lookup(table[1..], fpr)
  }

  // ---------- the appended text ----------

  /** insert_colons */
  function Colons(s: Octets): Octets {
    if |s| <= 2 then s else s[..2] + ":" + Colons(s[2..])
  }

  function Replace(s: Octets, with: Octets): Octets {
    if s == "" then "" else (if s[0] == '/' then with else [s[0]]) + Replace(s[1..], with)
  }

  /** reformat_name */
  function Reformat(name: Octets, with: Octets): Octets {
    if name == "" || name[0] != '/' then name else Replace(name[1..], with)
  }

  function HexLower(v: nat): char
    requires v < 16
  {
    if v < 10 then ('0' as int + v) as char else ('a' as int + v - 10) as char
  }

  /** es_write_sanitized without delimiters: control characters are quoted. */
  function Quoted(c: char): Octets {
    if c as int >= 0x20 && c as int != 0x7f then [c]
    else if c == '\n' then "\\n"
    else if c == '\r' then "\\r"
    else if c as int == 12 then "\\f"
    else if c as int == 11 then "\\v"
    else if c as int == 8 then "\\b"
    else if c as int == 0 then "\\0"
    else "\\x" + [HexLower(c as int / 16 % 16), HexLower(c as int % 16)]
  }

  function Sanitized(s: Octets): Octets {
    if s == "" then "" else Quoted(s[0]) + Sanitized(s[1..])
  }

  function Comment(name: Octets): Octets {
    "# " + if '\n' in name then Sanitized(name) else Reformat(name, "\n# ")
  }

  function EntryLine(fpr: Octets, flag: char, trusted: bool): Octets {
    (if trusted then "" else "!") + (Colons(fpr) + [' ', flag])
  }

  /** What agent_marktrusted appends. */
  function Appended(name: Octets, fpr: Octets, flag: char, trusted: bool): Octets {
    "\n" + (Comment(name) + ("\n" + (EntryLine(fpr, flag, trusted) + "\n")))
  }

  /** Every line of a text is within the line limit. */
  predicate LinesFit(s: Octets) {
    FirstLf(s) <= MAX_LINE && (FirstLf(s) < |s| ==> LinesFit(AfterLine(s)))
  }

  // ---------- reading it back ----------

  lemma {:induction false} FirstLfIs(line: Octets, rest: Octets)
    requires '\n' !in line
    ensures FirstLf(line + "\n" + rest) == |line|
  {
    var s := line + "\n" + rest;
    if line != "" {
      assert line[0] in line && forall c | c in line[1..] :: c in line;
      assert s[1..] == line[1..] + "\n" + rest;
      FirstLfIs(line[1..], rest);
    }
  }

  /** A complete line of text is read and left behind. */
  lemma ReadOne(line: Octets, rest: Octets, allow: bool, etc: Option<Octets>, st: State)
    requires '\n' !in line && |line| <= MAX_LINE
    ensures ReadLines(line + "\n" + rest, allow, etc, st) == ReadLines(rest, allow, etc, LineStep(line, allow, etc, st))
  {
    hide LineStep;
    var s := line + "\n" + rest;
    FirstLfIs(line, rest);
    assert s[..|line|] == line && s[|line| + 1..] == rest;
  }

  predicate Terminated(s: Octets) {
    s == "" || s[|s| - 1] == '\n'
  }

  lemma {:induction false} FirstLfOf(a: Octets, b: Octets)
    requires FirstLf(a) < |a|
    ensures FirstLf(a + b) == FirstLf(a)
  {
    if a[0] != '\n' {
      assert (a + b)[1..] == a[1..] + b;
      FirstLfOf(a[1..], b);
    }
  }

  /** Text behind complete lines is read in the state those lines leave. */
  lemma {:induction false} ReadBoth(a: Octets, b: Octets, allow: bool, etc: Option<Octets>, st: State)
    requires Terminated(a)
    ensures ReadLines(a + b, allow, etc, st) == ReadLines(b, allow, etc, ReadLines(a, allow, etc, st))
    decreases |a|
  {
    hide LineStep;
    if a == "" {
      assert a + b == b;
    } else {
      var n := FirstLf(a);
      assert a[|a| - 1] == '\n';
      assert n < |a|;
      FirstLfOf(a, b);
      var rest := a[n + 1..];
      assert (a + b)[n + 1..] == rest + b && (a + b)[..n] == a[..n];
      assert AfterLine(a) == rest && AfterLine(a + b) == rest + b;
      ReadBoth(rest, b, allow, etc, FileStep(a, allow, etc, st));
    }
  }

  lemma ErrorStays(s: Octets, allow: bool, etc: Option<Octets>, st: State)
    requires s != "" && st.err
    ensures FileStep(s, allow, etc, st).err
  {
    hide ParseLine, ReadLines;
  }

  lemma {:induction false} ErrorKept(s: Octets, allow: bool, etc: Option<Octets>, st: State)
    requires st.err
    ensures ReadLines(s, allow, etc, st).err
    decreases |s|
  {
    if s != "" {
      hide FileStep;
      ErrorStays(s, allow, etc, st);
      ErrorKept(AfterLine(s), allow, etc, FileStep(s, allow, etc, st));
    }
  }

  /** A list that reads without error ends in a complete line. */
  lemma {:induction false} NoErrorTerminated(s: Octets, allow: bool, etc: Option<Octets>, st: State)
    ensures ReadLines(s, allow, etc, st).err || Terminated(s)
    decreases |s|
  {
    if s != "" {
      hide LineStep;
      var st' := FileStep(s, allow, etc, st);
      if FirstLf(s) == |s| {
        ErrorKept(AfterLine(s), allow, etc, st');
      } else {
        NoErrorTerminated(AfterLine(s), allow, etc, st');
      }
    }
  }

  // ---------- comments ----------

  lemma IgnoredLine(line: Octets, allow: bool, etc: Option<Octets>, st: State)
    requires line == "" || line[0] == '#'
    ensures LineStep(line, allow, etc, st) == st
  {
    assert SkipBlanks(line) == line;
    hide ParseEntry, ReadLines;
  }

  lemma {:induction false} QuotedHasNoLf(s: Octets)
    ensures '\n' !in Sanitized(s)
  {
    if s != "" {
      QuotedHasNoLf(s[1..]);
      assert '\n' !in Quoted(s[0]);
      hide Quoted;
    }
  }

  lemma {:induction false} FitsOne(line: Octets)
    requires '\n' !in line
    ensures FirstLf(line) == |line|
  {
    if line != "" {
      assert line[0] in line && forall c | c in line[1..] :: c in line;
      FitsOne(line[1..]);
    }
  }

  /** A name spread over comment lines reads as nothing. */
  lemma {:induction false} CommentRead(line: Octets, name: Octets, rest: Octets, allow: bool, etc: Option<Octets>,
                                       st: State)
    requires line != "" && line[0] == '#' && '\n' !in line && '\n' !in name
    requires LinesFit(line + Replace(name, "\n# "))
    ensures ReadLines(line + Replace(name, "\n# ") + "\n" + rest, allow, etc, st) == ReadLines(rest, allow, etc, st)
    decreases |name|
  {
    hide ReadLines, LineStep, LinesFit, FirstLf;
    var text := Replace(name, "\n# ");
    if name == "" {
      assert line + text == line;
      FitsLast(line);
      ReadOne(line, rest, allow, etc, st);
      IgnoredLine(line, allow, etc, st);
    } else {
      assert name[0] in name && forall c | c in name[1..] :: c in name;
      var more := Replace(name[1..], "\n# ");
      if name[0] == '/' {
        var next := "# " + more;
        assert text == "\n# " + more;
        hide Replace;
        BreakLine(line, more, rest);
        FitsFirst(line, next);
        ReadOne(line, next + "\n" + rest, allow, etc, st);
        IgnoredLine(line, allow, etc, st);
        CommentRead("# ", name[1..], rest, allow, etc, st);
      } else {
        assert text == [name[0]] + more;
        hide Replace;
        var line' := line + [name[0]];
        assert line + text == line' + more;
        CommentRead(line', name[1..], rest, allow, etc, st);
      }
    }
  }

  lemma BreakLine(line: Octets, more: Octets, rest: Octets)
    ensures line + ("\n# " + more) == line + "\n" + ("# " + more)
    ensures line + ("\n# " + more) + "\n" + rest == line + "\n" + (("# " + more) + "\n" + rest)
  {
    assert "\n# " == "\n" + "# ";
    Assoc("\n", "# ", more);
    Assoc(line, "\n", "# " + more);
    var next := "# " + more;
    assert line + "\n" + next + "\n" + rest == line + "\n" + (next + "\n" + rest);
  }

  lemma FitsFirst(line: Octets, next: Octets)
    requires '\n' !in line && LinesFit(line + "\n" + next)
    ensures |line| <= MAX_LINE && LinesFit(next)
  {
    FirstLfIs(line, next);
    assert (line + "\n" + next)[|line| + 1..] == next;
  }

  lemma FitsLast(line: Octets)
    requires '\n' !in line && LinesFit(line)
    ensures |line| <= MAX_LINE
  {
    FitsOne(line);
  }

  lemma WholeComment(name: Octets, rest: Octets, allow: bool, etc: Option<Octets>, st: State)
    requires LinesFit(Comment(name))
    ensures ReadLines(Comment(name) + "\n" + rest, allow, etc, st) == ReadLines(rest, allow, etc, st)
  {
    hide ReadLines, LineStep;
    if '\n' in name || name == "" || name[0] != '/' {
      QuotedHasNoLf(name);
      FitsOne(Comment(name));
      ReadOne(Comment(name), rest, allow, etc, st);
      IgnoredLine(Comment(name), allow, etc, st);
    } else {
      CommentRead("# ", name[1..], rest, allow, etc, st);
    }
  }

  // ---------- the entry ----------

  lemma {:induction false} ColonsDecode(f: Octets, i: nat, length: nat, colon: bool, tail: Octets)
    requires AllHex(f) && |f| % 2 == 0 && f != "" && i >= 1 && length == i + |f| / 2 && (colon || i == 1)
    ensures ColonDigits(":" + (Colons(f) + tail), i, length, colon) == Some((HexToBin(f), tail))
    decreases |f|
  {
    hide IsHex, Xtoi2, ColonDigits, Colons, HexToBin;
    assert f[0] in f && f[1] in f && forall c | c in f[2..] :: c in f;
    var s := Colons(f) + tail;
    if |f| == 2 {
      LastPair(f, tail);
      NoDigits(tail, i + 1, length);
    } else {
      FirstColon(f, tail);
      ColonsDecode(f[2..], i + 1, length, true, tail);
    }
    NextOctet(f, s, i, length, colon, tail);
  }

  lemma LastPair(f: Octets, end: Octets)
    requires |f| == 2
    ensures var s := Colons(f) + end;
            f[2..] == "" && |s| >= 2 && s[0] == f[0] && s[1] == f[1] && s[2..] == end
  {
    assert Colons(f) == f;
  }

  lemma NoDigits(s: Octets, i: nat, length: nat)
    requires i == length
    ensures ColonDigits(s, i, length, true) == Some((HexToBin(""), s))
  {
  }

  /** One octet behind a colon. */
  lemma NextOctet(f: Octets, s: Octets, i: nat, length: nat, colon: bool, tail: Octets)
    requires |f| >= 2 && |s| >= 2 && s[0] == f[0] && s[1] == f[1] && IsHex(f[0]) && IsHex(f[1])
    requires i < length && (colon || i == 1)
    requires ColonDigits(s[2..], i + 1, length, true) == Some((HexToBin(f[2..]), tail))
    ensures ColonDigits(":" + s, i, length, colon) == Some((HexToBin(f), tail))
  {
    hide IsHex, Xtoi2;
    assert (":" + s)[1..] == s;
  }

  /** A fingerprint with colons and behind it a blank. */
  lemma FprDecodes(f: Octets, tail: Octets)
    requires AllHex(f) && |f| == 2 * FPR_LEN
    ensures HexColon(Colons(f) + (" " + tail), FPR_LEN) == Some((HexToBin(f), tail))
  {
    hide ColonDigits, Colons, HexToBin, IsHex, Xtoi2;
    var s := Colons(f) + (" " + tail);
    FirstColon(f, " " + tail);
    assert f[0] in f && f[1] in f && forall c | c in f[2..] :: c in f;
    ColonsDecode(f[2..], 1, FPR_LEN, false, " " + tail);
    FirstOctet(f, s, " " + tail);
    assert (" " + tail)[1..] == tail;
  }

  lemma FirstColon(f: Octets, end: Octets)
    requires |f| > 2
    ensures var s := Colons(f) + end;
            |s| >= 2 && s[0] == f[0] && s[1] == f[1] && s[2..] == ":" + (Colons(f[2..]) + end)
  {
    var more := Colons(f[2..]);
    assert Colons(f) == f[..2] + ":" + more;
    hide Colons;
    FrontOctet(f[..2], more, end);
  }

  lemma FrontOctet(a: Octets, more: Octets, end: Octets)
    requires |a| == 2
    ensures var s := a + ":" + more + end;
            |s| >= 2 && s[0] == a[0] && s[1] == a[1] && s[2..] == ":" + (more + end)
  {
    assert a + ":" + more + end == a + (":" + (more + end));
  }

  lemma FirstOctet(f: Octets, s: Octets, end: Octets)
    requires |f| == 2 * FPR_LEN && |s| >= 2 && s[0] == f[0] && s[1] == f[1] && IsHex(f[0]) && IsHex(f[1])
    requires ColonDigits(s[2..], 1, FPR_LEN, false) == Some((HexToBin(f[2..]), end))
    ensures ColonDigits(s, 0, FPR_LEN, false) == Some((HexToBin(f), end))
  {
    hide IsHex, Xtoi2;
  }

  /** The flags that the reader takes in first place. */
  predicate KnownFlag(flag: char) {
    flag in "*PpSs"
  }

  function NewItem(fpr: Octets, flag: char, trusted: bool): Item {
    Item(HexToBin(fpr), !trusted, flag in "*Pp", flag in "*Ss", false, false)
  }

  lemma FlagDecodes(flag: char)
    requires !IsBlank(flag)
    ensures SkipBlanks([flag]) == [flag] && Advance([flag], 1) == ""
    ensures FirstFlag([flag]) == if KnownFlag(flag) then Some((flag in "*Pp", flag in "*Ss")) else None
  {
  }

  lemma NoFlags(item: Item, err: bool)
    ensures Flags("", item, err) == (item, err)
  {
  }

  lemma EntryDecodes(fpr: Octets, flag: char, trusted: bool)
    requires AllHex(fpr) && |fpr| == 2 * FPR_LEN && !IsBlank(flag)
    ensures
      var line := EntryLine(fpr, flag, trusted);
      && line != "" && (line[0] == '!' || IsHex(line[0]))
      && ParseEntry(line) == if KnownFlag(flag) then Entry(NewItem(fpr, flag, trusted), false) else Bad
  {
    assert fpr[0] in fpr;
    var line := EntryLine(fpr, flag, trusted);
    var p := Colons(fpr) + (" " + [flag]);
    assert [' ', flag] == " " + [flag];
    assert p[0] == fpr[0];
    SkipNone(p);
    hide HexColon, Colons, HexToBin, IsHex, FirstFlag, Flags, SkipBlanks, KnownFlag;
    if trusted {
      assert line == p;
      NotBang(fpr[0]);
    } else {
      assert line == "!" + p && line[1..] == p;
    }
    FprDecodes(fpr, [flag]);
    FlagDecodes(flag);
    NoFlags(Item(HexToBin(fpr), !trusted, flag in "*Pp", flag in "*Ss", false, false), false);
  }

  lemma NotBang(c: char)
    requires IsHex(c)
    ensures c != '!' && c != '#' && c != 'i' && !IsBlank(c)
  {
  }

  lemma SkipNone(p: Octets)
    requires p != "" && IsHex(p[0])
    ensures SkipBlanks(p) == p
  {
  }

  lemma {:induction false} ColonsHasNoLf(s: Octets)
    requires '\n' !in s
    ensures '\n' !in Colons(s) && |Colons(s)| <= 2 * |s|
  {
    if |s| > 2 {
      assert forall c | c in s[2..] :: c in s;
      assert forall c | c in s[..2] :: c in s;
      ColonsHasNoLf(s[2..]);
    }
  }

  lemma EntryFits(fpr: Octets, flag: char, trusted: bool)
    requires AllHex(fpr) && |fpr| == 2 * FPR_LEN && flag != '\n'
    ensures '\n' !in EntryLine(fpr, flag, trusted) && |EntryLine(fpr, flag, trusted)| <= MAX_LINE
  {
    ColonsHasNoLf(fpr);
    hide Colons;
  }

  lemma ParsedAsEntry(line: Octets)
    requires line != "" && (line[0] == '!' || IsHex(line[0]))
    ensures ParseLine(line) == ParseEntry(line)
  {
    assert SkipBlanks(line) == line;
    assert INCLUDE[0] == 'i';
    hide ParseEntry;
  }

  // ---------- the theorem ----------

  /** Reading a list with the appended lines: with a known flag one item more, at the end, and
      nothing else changes; with any other flag the reader reports an error. */
  lemma ReadAppended(text: Octets, name: Octets, fpr: Octets, flag: char, trusted: bool, allow: bool,
                     etc: Option<Octets>, st: State)
    requires Terminated(text) && LinesFit(Comment(name))
    requires AllHex(fpr) && |fpr| == 2 * FPR_LEN && flag != '\n' && !IsBlank(flag)
    ensures
      var before := ReadLines(text, allow, etc, st);
      ReadLines(text + Appended(name, fpr, flag, trusted), allow, etc, st)
      == if KnownFlag(flag) then State(before.table + [NewItem(fpr, flag, trusted)], before.err)
          else before.(err := true)
  {
    hide *;
    var before := ReadLines(text, allow, etc, st);
    var line := EntryLine(fpr, flag, trusted);
    EntryDecodes(fpr, flag, trusted);
    EntryFits(fpr, flag, trusted);
    ParsedAsEntry(line);
    EntryStep(line, allow, etc, before);
    AppendedLines(name, fpr, flag, trusted);
    var rest := Comment(name) + "\n" + (line + "\n" + "");
    ReadBoth(text, "" + "\n" + rest, allow, etc, st);
    NoLf();
    ReadOne("", rest, allow, etc, before);
    IgnoredLine("", allow, etc, before);
    WholeComment(name, line + "\n" + "", allow, etc, before);
    ReadOne(line, "", allow, etc, before);
    ReadNothing(allow, etc, LineStep(line, allow, etc, before));
  }

  lemma AppendedLines(name: Octets, fpr: Octets, flag: char, trusted: bool)
    ensures Appended(name, fpr, flag, trusted) == "" + "\n"
        + (Comment(name) + "\n" + (EntryLine(fpr, flag, trusted) + "\n" + ""))
  {
    hide Comment, EntryLine;
    var c, e := Comment(name), EntryLine(fpr, flag, trusted) + "\n";
    assert e + "" == e;
    Assoc(c, "\n", e);
    assert "" + "\n" == "\n";
  }

  lemma NoLf()
    ensures '\n' !in "" && MAX_LINE == 253
  {
  }

  lemma EntryStep(line: Octets, allow: bool, etc: Option<Octets>, st: State)
    ensures ParseLine(line).Entry? ==>
              LineStep(line, allow, etc, st)
              == State(st.table + [ParseLine(line).item], st.err || ParseLine(line).err)
    ensures ParseLine(line).Bad? ==> LineStep(line, allow, etc, st) == st.(err := true)
  {
    hide ParseLine, ReadLines;
  }

  lemma ReadNothing(allow: bool, etc: Option<Octets>, st: State)
    ensures ReadLines("", allow, etc, st) == st
  {
  }

  /** Looking up in a table with one item more. */
  lemma {:induction false} LookupAppended(table: seq<Item>, item: Item, fpr: Octets)
    ensures Lookup(table + [item], fpr)
         == if item.fpr == fpr && (forall t | t in table :: t.fpr != fpr)
            then if item.disabled then NotTrusted(true) else Trusted
            else Lookup(table, fpr)
    ensures (forall t | t in table :: t.fpr != fpr) <==> Lookup(table, fpr) == NotTrusted(false)
  {
    if table == [] {
      assert [item][1..] == [];
      assert table + [item] == [item];
    } else {
      assert (table + [item])[1..] == table[1..] + [item];
      LookupAppended(table[1..], item, fpr);
      assert table[0] in table && forall t | t in table[1..] :: t in table;
      assert forall t | t in table :: t == table[0] || t in table[1..];
    }
  }

  /** The user's answer is what a later question gets: after appending to a list that reads
      without error and does not have the fingerprint, that fingerprint is trusted or marked
      as not trusted as chosen, and every other fingerprint is judged as before. */
  lemma AppendedAnswers(home: Octets, etc: Option<Octets>, name: Octets, fpr: Octets, flag: char, trusted: bool,
                        other: Octets)
    requires Load(Some(home), etc).Some? && Lookup(Load(Some(home), etc).value, HexToBin(fpr)) == NotTrusted(false)
    requires LinesFit(Comment(name)) && AllHex(fpr) && |fpr| == 2 * FPR_LEN && KnownFlag(flag)
    ensures
      var before := Load(Some(home), etc).value;
      var after := Load(Some(home + Appended(name, fpr, flag, trusted)), etc);
      && after == Some(before + [NewItem(fpr, flag, trusted)])
      && Lookup(after.value, HexToBin(fpr)) == (if trusted then Trusted else NotTrusted(true))
      && (other != HexToBin(fpr) ==> Lookup(after.value, other) == Lookup(before, other))
  {
    hide ReadLines, Appended, Comment, Lookup, LinesFit;
    NoErrorTerminated(home, true, etc, State([], false));
    ReadAppended(home, name, fpr, flag, trusted, true, etc, State([], false));
    var before := Load(Some(home), etc).value;
    LookupAppended(before, NewItem(fpr, flag, trusted), HexToBin(fpr));
    LookupAppended(before, NewItem(fpr, flag, trusted), other);
  }

  // ---------- a new file ----------

  function LinesText(lines: seq<Octets>): Octets {
    if lines == [] then "" else lines[0] + "\n" + LinesText(lines[1..])
  }

  /** What a new file starts with: comments, the include statement and an empty line. */
  function Header(blurb: seq<Octets>): Octets {
    LinesText(blurb + ([INCLUDE] + [""]))
  }

  predicate PlainLine(line: Octets) {
    '\n' !in line && |line| <= MAX_LINE && (line == "" || line[0] == '#')
  }

  lemma {:induction false} PlainRead(lines: seq<Octets>, rest: Octets, allow: bool, etc: Option<Octets>, st: State)
    requires forall l | l in lines :: PlainLine(l)
    ensures ReadLines(LinesText(lines) + rest, allow, etc, st) == ReadLines(rest, allow, etc, st)
  {
    if lines == [] {
      assert LinesText(lines) + rest == rest;
    } else {
      var more := LinesText(lines[1..]) + rest;
      assert LinesText(lines) + rest == lines[0] + "\n" + more;
      assert PlainLine(lines[0]) && forall l | l in lines[1..] :: l in lines;
      hide ReadLines, LinesText, LineStep;
      ReadOne(lines[0], more, allow, etc, st);
      IgnoredLine(lines[0], allow, etc, st);
      PlainRead(lines[1..], rest, allow, etc, st);
    }
  }

  lemma {:induction false} LinesTextAppend(a: seq<Octets>, b: seq<Octets>)
    ensures LinesText(a + b) == LinesText(a) + LinesText(b)
  {
    if a == [] {
      assert a + b == b;
    } else {
      assert (a + b)[1..] == a[1..] + b;
      LinesTextAppend(a[1..], b);
    }
  }

  /** The header of a new file stands for the system's list. */
  lemma HeaderRead(blurb: seq<Octets>, etc: Option<Octets>, st: State)
    requires forall l | l in blurb :: PlainLine(l)
    ensures ReadLines(Header(blurb), true, etc, st) == LineStep(INCLUDE, true, etc, st)
  {
    hide ReadLines, LineStep, PlainLine;
    HeaderText(blurb);
    PlainRead(blurb, INCLUDE + "\n" + ("" + "\n" + ""), true, etc, st);
    IncludeFits();
    ReadOne(INCLUDE, "" + "\n" + "", true, etc, st);
    ReadOne("", "", true, etc, LineStep(INCLUDE, true, etc, st));
    IgnoredLine("", true, etc, LineStep(INCLUDE, true, etc, st));
    ReadNothing(true, etc, LineStep(INCLUDE, true, etc, st));
  }

  lemma IncludeFits()
    ensures '\n' !in INCLUDE && |INCLUDE| <= MAX_LINE && '\n' !in ""
  {
    assert INCLUDE == "include-default";
  }

  lemma HeaderText(blurb: seq<Octets>)
    ensures Header(blurb) == LinesText(blurb) + (INCLUDE + "\n" + ("" + "\n" + ""))
  {
    LinesTextAppend(blurb, [INCLUDE] + [""]);
    LinesTextAppend([INCLUDE], [""]);
    OneLine(INCLUDE);
    OneLine("");
    hide LinesText;
    assert INCLUDE + "\n" + "" == INCLUDE + "\n";
  }

  lemma OneLine(l: Octets)
    ensures LinesText([l]) == l + "\n" + ""
  {
    assert [l][1..] == [];
  }

  lemma IncludeLine(etc: Option<Octets>, st: State)
    ensures LineStep(INCLUDE, true, etc, st)
         == if etc.Some? then
              var inner := ReadLines(etc.value, false, None, State(st.table, false));
              State(inner.table, st.err || inner.err)
            else st
  {
    assert SkipBlanks(INCLUDE) == INCLUDE && INCLUDE[0] != '#';
    hide ReadLines, ParseEntry;
  }

  /** A new file with only the header reads as the system's list did without it. */
  lemma HeaderKeepsTable(blurb: seq<Octets>, etc: Option<Octets>)
    requires forall l | l in blurb :: PlainLine(l)
    ensures Load(Some(Header(blurb)), etc) == Load(None, etc)
  {
    hide ReadLines, LineStep, Header, PlainLine;
    HeaderRead(blurb, etc, State([], false));
    IncludeLine(etc, State([], false));
  }

  /** A fingerprint without colons, as the callers give it. */
  lemma PlainFpr(f: Octets)
    requires AllHex(f) && |f| == 2 * FPR_LEN
    ensures HexColon(f, FPR_LEN) == Some((HexToBin(f), ""))
  {
    PlainDigits(f, 0, FPR_LEN);
  }

  lemma {:induction false} PlainDigits(f: Octets, i: nat, length: nat)
    requires AllHex(f) && |f| % 2 == 0 && length == i + |f| / 2
    ensures ColonDigits(f, i, length, false) == Some((HexToBin(f), ""))
  {
    hide IsHex, Xtoi2;
    if f != "" {
      assert f[0] in f && f[1] in f && forall c | c in f[2..] :: c in f;
      NotColon(f[0]);
      PlainDigits(f[2..], i + 1, length);
    }
  }

  lemma NotColon(c: char)
    requires IsHex(c)
    ensures c != ':'
  {
  }

  /** One list that can no longer be read: the flag that the documentation offers besides 'P'. */
  lemma FlagCRejected(etc: Option<Octets>)
    ensures ReadLines("" + Appended("CN", seq(2 * FPR_LEN, _ => '0'), 'C', true), true, etc, State([], false))
        == State([], true)
  {
    var fpr := seq(2 * FPR_LEN, _ => '0');
    NameFits();
    ReadNothing(true, etc, State([], false));
    hide Appended, LinesFit, Comment, ReadLines;
    ReadAppended("", "CN", fpr, 'C', true, true, etc, State([], false));
  }

  lemma NameFits()
    ensures LinesFit(Comment("CN"))
  {
    assert Comment("CN") == "# CN";
    FitsOne("# CN");
  }
}
