/** trustlist.c as code: the line reader, the cached table, and marking a certificate. */
module TrustStore {
  import opened Common
  import opened Sexp
  import opened Convert
  import opened Trustlist

  // ---------- reading ----------

  method PastBlanks(s: Octets) returns (r: Octets)
    ensures r == SkipBlanks(s)
  {
    r := s;
    while r != "" && IsBlank(r[0])
      invariant SkipBlanks(s) == SkipBlanks(r)
      decreases |r|
    {
      r := r[1..];
    }
  }

  method NameSpan(s: Octets) returns (n: nat)
    ensures n == NameLength(s)
  {
    n := 0;
    while n < |s| && s[n] != '=' && !IsBlank(s[n])
      invariant n <= |s| && NameLength(s) == n + NameLength(s[n..])
    {
      assert s[n..][1..] == s[n + 1..];
      n := n + 1;
    }
  }

  /** The loop over further flags. */
  method ReadFlags(s: Octets, start: Item) returns (item: Item, err: bool)
    ensures (item, err) == Flags(s, start, false)
  {
    item, err := start, false;
    var p := s;
    while p != ""
      invariant Flags(s, start, false) == Flags(p, item, err)
      decreases |p|
    {
      p := PastBlanks(p);
      if p == "" {
        break;
      }
      var n := NameSpan(p);
      if n < |p| && p[n] == '=' {
        err := true;
        p := p[1..];
        p := p[n..];
      } else {
        if n == 5 && p[..n] == "relax" {
          item := item.(relax := true);
        } else if n == 2 && p[..n] == "cm" {
          item := item.(cm := true);
        }
        p := p[n..];
      }
    }
  }

  /** A line that holds a fingerprint, from its first character on. */
  method ReadEntry(line: Octets) returns (r: Line)
    requires line != ""
    ensures r == ParseEntry(line)
  {
    hide HexColon, SkipBlanks, Flags, IsBlank;
    var p := line;
    var disabled := false;
    if p[0] == '!' {
      disabled := true;
      p := PastBlanks(p[1..]);
    }
    var ok, fpr;
    ok, fpr, p := HexColon2Bin(p, FPR_LEN);
    if !ok {
      return Bad;
    }
    p := PastBlanks(p);
    var pgp, smime := false, false;
    if p == "" || p[0] == '*' {
      pgp, smime := true, true;
    } else if p[0] == 'P' || p[0] == 'p' {
      pgp := true;
    } else if p[0] == 'S' || p[0] == 's' {
      smime := true;
    } else {
      return Bad;
    }
    p := Advance(p, 1);
    if p != "" && !IsBlank(p[0]) {
      return Bad;
    }
    var item, err := ReadFlags(p, Item(fpr, disabled, pgp, smime, false, false));
    return Entry(item, err);
  }

  /** fgets into a buffer of 255 octets; a line that is not complete is dropped up to its end. */
  method GetLine(s: Octets) returns (ok: bool, line: Octets, rest: Octets)
    requires s != ""
    ensures rest == AfterLine(s)
    ensures ok <==> FirstLf(s) < |s| && FirstLf(s) <= MAX_LINE
    ensures ok ==> line == s[..FirstLf(s)]
  {
    var i := 0;
    while i < |s| && i < 254 && (i == 0 || s[i - 1] != '\n')
      invariant i <= |s| && i <= 254 && forall j | 0 <= j < i - 1 :: s[j] != '\n'
    {
      i := i + 1;
    }
    line := s[..i];
    ok := line[i - 1] == '\n';
    if ok {
      LfAt(s, i - 1);
      line := line[..i - 1];
      rest := s[i..];
    } else {
      var j := i;
      while j < |s| && s[j] != '\n'
        invariant i <= j <= |s| && forall k | 0 <= k < j :: s[k] != '\n'
      {
        j := j + 1;
      }
      LfAt(s, j);
      rest := Advance(s, j + 1);
    }
  }

  lemma LfAt(s: Octets, i: nat)
    requires i <= |s| && (i < |s| ==> s[i] == '\n') && forall j | 0 <= j < i :: s[j] != '\n'
    ensures FirstLf(s) == i
  {
  }

  /** read_one_trustfile */
  method ReadTrustFile(text: Octets, allow: bool, etc: Option<Octets>, start: seq<Item>)
    returns (table: seq<Item>, err: bool)
    ensures State(table, err) == ReadLines(text, allow, etc, State(start, false))
    decreases allow
  {
    hide ParseEntry, SkipBlanks;
    table, err := start, false;
    var cur := text;
    while cur != ""
      invariant ReadLines(text, allow, etc, State(start, false)) == ReadLines(cur, allow, etc, State(table, err))
      decreases |cur|
    {
      ghost var next := FileStep(cur, allow, etc, State(table, err));
      var ok, line, rest := GetLine(cur);
      if !ok {
        err := true;
        cur := rest;
        assert State(table, err) == next;
        continue;
      }
      assert next == LineStep(line, allow, etc, State(table, err));
      var p := PastBlanks(line);
      if p == "" || p[0] == '#' {
        cur := rest;
        continue;
      }
      if INCLUDE <= p && (|p| == |INCLUDE| || IsBlank(p[|INCLUDE|])) {
        if allow && etc.Some? {
          var err2;
          table, err2 := ReadTrustFile(etc.value, false, None, table);
          err := err || err2;
        }
        cur := rest;
        assert State(table, err) == next;
        continue;
      }
      var r := ReadEntry(p);
      if r.Entry? {
        table := table + [r.item];
        err := err || r.err;
      } else {
        err := true;
      }
      cur := rest;
      assert State(table, err) == next;
    }
  }

  // ---------- writing ----------

  /** insert_colons */
  method InsertColons(s: Octets) returns (r: Octets)
    ensures r == Colons(s)
  {
    r := "";
    var i := 0;
    while i < |s|
      invariant i <= |s| && (i < |s| ==> i % 2 == 0) && Colons(s) == r + Colons(s[i..])
    {
      ColonsStep(s, i, r);
      r := r + [s[i]];
      i := i + 1;
      if i < |s| {
        r := r + [s[i]];
        i := i + 1;
        if i < |s| {
          r := r + ":";
        }
      }
    }
    assert r + "" == r;
  }

  lemma ColonsStep(s: Octets, i: nat, r: Octets)
    requires i < |s|
    ensures i + 1 == |s| ==> r + Colons(s[i..]) == r + [s[i]] + Colons(s[|s|..])
    ensures i + 2 == |s| ==> r + Colons(s[i..]) == r + [s[i]] + [s[i + 1]] + Colons(s[|s|..])
    ensures i + 2 < |s| ==> r + Colons(s[i..]) == r + [s[i]] + [s[i + 1]] + ":" + Colons(s[i + 2..])
  {
    var todo := s[i..];
    assert Colons(s[|s|..]) == "";
    if i + 2 < |s| {
      assert todo[2..] == s[i + 2..];
      assert todo[..2] == [s[i], s[i + 1]];
      Regroup(r, s[i], s[i + 1], Colons(s[i + 2..]));
    } else if i + 2 == |s| {
      assert todo == [s[i], s[i + 1]];
    } else {
      assert todo == [s[i]];
    }
  }

  lemma Regroup(r: Octets, a: char, b: char, more: Octets)
    ensures r + ([a, b] + ":" + more) == r + [a] + [b] + ":" + more
  {
  }

  /** reformat_name */
  method ReformatName(name: Octets, with: Octets) returns (r: Octets)
    ensures r == Reformat(name, with)
  {
    if name == "" || name[0] != '/' {
      return name;
    }
    r := "";
    ghost var rest := name[1..];
    var i := 1;
    while i < |name|
      invariant 1 <= i <= |name| && Replace(rest, with) == r + Replace(name[i..], with)
    {
      assert name[i..][1..] == name[i + 1..];
      if name[i] == '/' {
        Assoc(r, with, Replace(name[i + 1..], with));
        r := r + with;
      } else {
        Assoc(r, [name[i]], Replace(name[i + 1..], with));
        r := r + [name[i]];
      }
      i := i + 1;
    }
  }

  /** es_write_sanitized without delimiters */
  method WriteSanitized(s: Octets) returns (r: Octets)
    ensures r == Sanitized(s)
  {
    hide Quoted;
    r := "";
    var i := 0;
    while i < |s|
      invariant i <= |s| && Sanitized(s) == r + Sanitized(s[i..])
    {
      assert s[i..][1..] == s[i + 1..];
      Assoc(r, Quoted(s[i]), Sanitized(s[i + 1..]));
      r := r + Quoted(s[i]);
      i := i + 1;
    }
  }

  // ---------- the agent's view ----------

  datatype TrustError = InvValue | ReadError | Perm | NotSupported | DialogError | NotTrustedError

  datatype Confirm = Yes | No | Failed

  /** What agent_istrusted answers when the table in use is this one: an error or none, and
      whether the fingerprint is listed as not trusted. */
  function Ask(table: Option<seq<Item>>, fpr: Octets): (Option<TrustError>, bool) {
    match HexColon(fpr, FPR_LEN)
    case None => (Some(InvValue), false)
    case Some((bin, _)) =>
      if table.None? then (Some(ReadError), false)
      else
        match Lookup(table.value, bin)
        case Trusted => (None, false)
        case NotTrusted(d) => (Some(NotTrustedError), d)
  }

  /** The trust list files and the cached table.  `blurb` are the comments of a new file. */
  class Store {
    var home: Option<Octets>
    var etc: Option<Octets>
    var table: Option<seq<Item>>
    const blurb: seq<Octets>

    ghost predicate Valid()
      reads this
    {
      forall l | l in blurb :: PlainLine(l)
    }

    /** The table a question uses: the cached one or the one that is read now. */
    ghost function InUse(): Option<seq<Item>>
      reads this
    {
      if table.Some? then table else Load(home, etc)
    }

    /** The list as it is, or as it begins when there is none yet. */
    ghost function Base(): Octets
      reads this
    {
      if home.Some? then home.value else Header(blurb)
    }

    constructor (home: Option<Octets>, etc: Option<Octets>, blurb: seq<Octets>)
      requires forall l | l in blurb :: PlainLine(l)
      ensures Valid() && this.home == home && this.etc == etc && this.blurb == blurb && table == None
    {
      this.home, this.etc, this.blurb := home, etc, blurb;
      table := None;
    }

    /** read_trustfiles */
    method ReadTrustFiles() returns (ok: bool)
      modifies this`table
      ensures ok <==> Load(home, etc).Some?
      ensures table == if ok then (if home.None? && etc.None? then None else Load(home, etc)) else old(table)
    {
      hide ReadLines;
      var items, err;
      if home.Some? {
        items, err := ReadTrustFile(home.value, true, etc, []);
      } else if etc.Some? {
        items, err := ReadTrustFile(etc.value, false, None, []);
      } else {
        table := None;
        return true;
      }
      if err {
        return false;
      }
      table := Some(items);
      return true;
    }

    /** agent_istrusted */
    method IsTrusted(fpr: Octets) returns (err: Option<TrustError>, disabled: bool)
      modifies this`table
      ensures (err, disabled) == Ask(old(InUse()), fpr)
      ensures InUse() == old(InUse())
    {
      hide Load, HexColon;
      disabled := false;
      var ok, bin, rest := HexColon2Bin(fpr, FPR_LEN);
      if !ok {
        return Some(InvValue), false;
      }
      if table.None? {
        ok := ReadTrustFiles();
        if !ok {
          return Some(ReadError), false;
        }
      }
      var items: seq<Item> := if table.Some? then table.value else [];
      assert Some(items) == old(InUse()) by {
        EmptyLoad();
      }
      var i := 0;
      while i < |items|
        invariant i <= |items| && Lookup(items, bin) == Lookup(items[i..], bin)
      {
        assert items[i..][1..] == items[i + 1..];
        if items[i].fpr == bin {
          if items[i].disabled {
            return Some(NotTrustedError), true;
          }
          return None, false;
        }
        i := i + 1;
      }
      return Some(NotTrustedError), false;
    }

    static lemma EmptyLoad()
      ensures Load(None, None) == Some([])
    {
    }

    /** agent_marktrusted.  The file changes exactly when it may be written, the first answer is
        neither that the key is trusted nor that it is disabled, the user answers, and a fresh
        reading does not list the key either; then exactly the promised lines are appended.
        Questions after the call use a fresh reading exactly when the user had answered. */
    method MarkTrusted(name: Octets, fpr: Octets, flag: char, writable: bool, allowMark: bool, c1: Confirm, c2: Confirm)
      returns (err: Option<TrustError>)
      requires Valid() && AllHex(fpr) && |fpr| == 2 * FPR_LEN
      modifies this`table, this`home
      ensures home == (
        if Appends(old(InUse()), old(Load(home, etc)), fpr, writable, allowMark, c1, c2)
        then Some(old(Base()) + Appended(name, fpr, flag, c1.Yes? && c2.Yes?))
        else old(home))
      ensures Appends(old(InUse()), old(Load(home, etc)), fpr, writable, allowMark, c1, c2) ==> table.None?
      ensures err == MarkOutcome(old(InUse()), old(Load(home, etc)), fpr, writable, allowMark, c1, c2)
      ensures InUse() == if Answered(old(InUse()), fpr, writable, allowMark, c1, c2) then Load(home, etc)
          else old(InUse())
    {
      hide Load, Ask, Header, Colons, PlainLine, InUse, AllHex;
      ghost var listed := Load(home, etc);
      if !writable {
        return Some(Perm);
      }
      var disabled;
      err, disabled := IsTrusted(fpr);
      if err.None? {
        return;
      }
      if !allowMark {
        return Some(NotSupported);
      }
      if disabled {
        return Some(NotTrustedError);
      }
      var yes := c1.Yes?;
      if c1.Failed? {
        return Some(DialogError);
      }
      var colons := InsertColons(fpr);
      if yes {
        if c2.Failed? {
          return Some(DialogError);
        }
        yes := c2.Yes?;
      }
      table := None;
      assert InUse() == listed == Load(home, etc) by {
        NothingCached();
      }
      err, disabled := IsTrusted(fpr);
      if err.None? || disabled {
        return if disabled then Some(NotTrustedError) else None;
      }
      var text := Header(blurb);
      if home.Some? {
        text := home.value;
      }
      var shown := "\n# ";
      var formatted := ReformatName(name, "\n# ");
      if '\n' in name {
        formatted := WriteSanitized(name);
      }
      shown := shown + formatted;
      var entry := "\n" + (if yes then "" else "!") + colons + " " + [flag] + "\n";
      AppendedIs(name, fpr, flag, yes, formatted);
      home := Some(text + (shown + entry));
      table := None;
      NothingCached();
      return None;
    }

    lemma NothingCached()
      requires table.None?
      ensures InUse() == Load(home, etc)
    {
    }
  }

  /** The user is asked about a key that is not in the list, and answers. */
  predicate Answered(inUse: Option<seq<Item>>, fpr: Octets, writable: bool, allowMark: bool, c1: Confirm, c2: Confirm) {
    && writable && allowMark
    && Ask(inUse, fpr).0.Some? && !Ask(inUse, fpr).1
    && !c1.Failed? && (c1.Yes? ==> !c2.Failed?)
  }

  /** When agent_marktrusted appends, given the table in use and the one on file. */
  predicate Appends(inUse: Option<seq<Item>>, onFile: Option<seq<Item>>, fpr: Octets, writable: bool, allowMark: bool,
                    c1: Confirm, c2: Confirm) {
    && Answered(inUse, fpr, writable, allowMark, c1, c2)
    && Ask(onFile, fpr).0.Some? && !Ask(onFile, fpr).1
  }

  /** What it reports: success also for a key that is trusted already. */
  function MarkOutcome(inUse: Option<seq<Item>>, onFile: Option<seq<Item>>, fpr: Octets, writable: bool,
                       allowMark: bool, c1: Confirm, c2: Confirm): Option<TrustError> {
    if !writable then Some(Perm)
    else if Ask(inUse, fpr).0.None? then None
    else if !allowMark then Some(NotSupported)
    else if Ask(inUse, fpr).1 then Some(NotTrustedError)
    else if !Answered(inUse, fpr, writable, allowMark, c1, c2) then Some(DialogError)
    else if Ask(onFile, fpr).1 then Some(NotTrustedError)
    else None
  }

  lemma AppendedIs(name: Octets, fpr: Octets, flag: char, yes: bool, shown: Octets)
    requires Comment(name) == "# " + shown
    ensures Appended(name, fpr, flag, yes)
         == ("\n# " + shown) + ("\n" + (if yes then "" else "!") + Colons(fpr) + " " + [flag] + "\n")
  {
    hide Comment, Colons;
    var bang := if yes then "" else "!";
    assert "\n# " == "\n" + "# ";
    assert [' ', flag] == " " + [flag];
    AppendedAssoc("# ", shown, bang, Colons(fpr), " ", [flag]);
  }

  lemma AppendedAssoc(a: Octets, b: Octets, c: Octets, d: Octets, e: Octets, f: Octets)
    ensures "\n" + ((a + b) + ("\n" + ((c + (d + (e + f))) + "\n"))) == (("\n" + a) + b) + ("\n" + c + d + e + f + "\n")
  {
    var x := d + (e + f);
    assert c + d + e + f == c + x;
    assert "\n" + c + d + e + f + "\n" == "\n" + ((c + x) + "\n");
  }

  /** Mark and ask again: when the list could be read and the name's lines are short enough,
      the new answer for the key is the user's and every other key is judged as before. */
  method MarkThenAsk(s: Store, name: Octets, fpr: Octets, flag: char, writable: bool, allowMark: bool, c1: Confirm,
                     c2: Confirm, other: Octets)
    returns (err: Option<TrustError>, again: (Option<TrustError>, bool), others: (Option<TrustError>, bool))
    requires s.Valid() && AllHex(fpr) && |fpr| == 2 * FPR_LEN && AllHex(other) && |other| == 2 * FPR_LEN
    requires LinesFit(Comment(name)) && KnownFlag(flag)
    requires Load(s.home, s.etc).Some?
    requires Appends(s.InUse(), Load(s.home, s.etc), fpr, writable, allowMark, c1, c2)
    modifies s
    ensures err.None?
    ensures again == if c1.Yes? && c2.Yes? then (None, false) else (Some(NotTrustedError), true)
    ensures HexToBin(other) != HexToBin(fpr) ==> others == Ask(old(Load(s.home, s.etc)), other)
  {
    hide Load, Lookup, HexToBin, LinesFit, Comment, PlainLine, Appended, Header, KnownFlag, HexColon, AllHex, NewItem;
    ghost var base := s.Base();
    ghost var etc := s.etc;
    ghost var before := Load(s.home, etc);
    if s.home.None? {
      HeaderKeepsTable(s.blurb, etc);
    }
    assert Load(Some(base), etc) == before;
    PlainFpr(fpr);
    PlainFpr(other);
    AppendedAnswers(base, etc, name, fpr, flag, c1.Yes? && c2.Yes?, HexToBin(other));
    err := s.MarkTrusted(name, fpr, flag, writable, allowMark, c1, c2);
    var e, d := s.IsTrusted(fpr);
    again := (e, d);
    e, d := s.IsTrusted(other);
    others := (e, d);
  }
}
