/** The access list of internal/acl: reading the text, listing it, and deciding an address;
    and the text the setup wizard writes. Address parsing and containment belong to Go's net
    package and are parameters. */
module AccessList {
  import opened Bytes

  datatype IPNet = IPNet(ip: bytes, mask: bytes)

  /** The parts of Go's net package the access list uses. */
  datatype Net = Net(
    parseIP: string -> Option<bytes>,
    parseCIDR: string -> Option<IPNet>,
    contains: (IPNet, bytes) -> bool,
    equal: (bytes, bytes) -> bool)

  datatype Entry = Cidr(network: IPNet) | Host(ip: bytes)

  // ---- Text ----

  /** unicode.IsSpace */
  predicate IsSpace(c: char) {
    var n := c as int;
    || 0x09 <= n <= 0x0D || n == 0x20 || n == 0x85 || n == 0xA0 || n == 0x1680
    || 0x2000 <= n <= 0x200A || n == 0x2028 || n == 0x2029 || n == 0x202F || n == 0x205F
    || n == 0x3000
  }

  predicate AllSpace(s: string) {
    forall i :: 0 <= i < |s| ==> IsSpace(s[i])
  }

  /** strings.Split(s, "\n") */
  function Lines(s: string): (ls: seq<string>)
    ensures |ls| >= 1
  {
    if s == "" then [""] else ConsChar(s[0], Lines(s[1..]))
  }

  /** The lines of a text with c put in front. */
  function ConsChar(c: char, ls: seq<string>): (r: seq<string>)
    requires |ls| >= 1
    ensures |r| >= 1
  {
    if c == '\n' then [""] + ls else [[c] + ls[0]] + ls[1..]
  }

  function TrimLeft(s: string): string {
    if s != "" && IsSpace(s[0]) then TrimLeft(s[1..]) else s
  }

  function TrimRight(s: string): string {
    if s != "" && IsSpace(s[|s| - 1]) then TrimRight(s[..|s| - 1]) else s
  }

  /** strings.TrimSpace */
  function Trim(s: string): string {
    TrimRight(TrimLeft(s))
  }

  /** strings.Fields(s)[0], for s that starts with a non-space. */
  function FirstWord(s: string): string {
    if s == "" || IsSpace(s[0]) then "" else [s[0]] + FirstWord(s[1..])
  }

  // ---- Listing and parsing ----

  /** What a line contributes to the list. */
  function FieldOf(line: string): Option<string> {
    var t := Trim(line);
    if t == "" || t[0] == '#' then None else Some(FirstWord(t))
  }

  function FieldsOf(lines: seq<string>): seq<string> {
    if lines == [] then [] else
      var front := FieldsOf(lines[..|lines| - 1]);
      match FieldOf(lines[|lines| - 1])
      case None => front
      case Some(f) => front + [f]
  }

  function Listed(content: string): seq<string> {
    FieldsOf(Lines(content))
  }

  function ParseEntry(net: Net, s: string): Option<Entry> {
    if '/' in s then
      match net.parseCIDR(s)
      case Some(network) => Some(Cidr(network))
      case None => None
    else
      match net.parseIP(s)
      case Some(ip) => Some(Host(ip))
      case None => None
  }

  /** The entries of the valid fields, in order; invalid fields are skipped. */
  function ValidEntries(net: Net, fields: seq<string>): seq<Entry> {
    if fields == [] then [] else
      var front := ValidEntries(net, fields[..|fields| - 1]);
      match ParseEntry(net, fields[|fields| - 1])
      case None => front
      case Some(e) => front + [e]
  }

  function Covers(net: Net, e: Entry, ip: bytes): bool {
    match e
    case Cidr(network) => net.contains(network, ip)
    case Host(host) => net.equal(host, ip)
  }

  /** Whether the address text is a valid address covered by some entry. */
  predicate Permits(net: Net, entries: seq<Entry>, address: string) {
    && net.parseIP(address).Some?
    && exists i :: 0 <= i < |entries| && Covers(net, entries[i], net.parseIP(address).value)
  }

  /** Entries in the source: the fields of a list, for display. */
  method Entries(content: string) returns (out: seq<string>)
    ensures out == Listed(content)
  {
    out := [];
    var lines := Lines(content);
    for i := 0 to |lines|
      invariant out == FieldsOf(lines[..i])
    {
      assert lines[..i + 1][..i] == lines[..i];
      var line := Trim(lines[i]);
      if line == "" || line[0] == '#' {
        continue;
      }
      out := out + [FirstWord(line)];
    }
    assert lines[..|lines|] == lines;
  }

  /** Parse in the source keeps exactly the valid fields of what Entries lists, in order. */
  method Parse(net: Net, content: string) returns (entries: seq<Entry>)
    ensures entries == ValidEntries(net, Listed(content))
  {
    entries := [];
    var lines := Lines(content);
    for i := 0 to |lines|
      invariant entries == ValidEntries(net, FieldsOf(lines[..i]))
    {
      assert lines[..i + 1][..i] == lines[..i];
      var line := Trim(lines[i]);
      if line == "" || line[0] == '#' {
        continue;
      }
      var field := FirstWord(line);
      var e := ParseEntry(net, field);
      ValidEntriesSnoc(net, FieldsOf(lines[..i]), field);
      if e.Some? {
        entries := entries + [e.value];
      }
    }
    assert lines[..|lines|] == lines;
  }

  /** The decision, with the source's early returns. */
  method Allows(net: Net, entries: seq<Entry>, address: string) returns (ok: bool)
    ensures ok == Permits(net, entries, address)
  {
    if |entries| == 0 {
      return false;
    }
    var ip := net.parseIP(address);
    if ip.None? {
      return false;
    }
    for i := 0 to |entries|
      invariant forall j :: 0 <= j < i ==> !Covers(net, entries[j], ip.value)
    {
      if Covers(net, entries[i], ip.value) {
        return true;
      }
    }
    return false;
  }

  lemma ValidEntriesSnoc(net: Net, fields: seq<string>, f: string)
    ensures ValidEntries(net, fields + [f]) == ValidEntries(net, fields)
      + match ParseEntry(net, f) case None => [] case Some(e) => [e]
  {
    assert (fields + [f])[..|fields|] == fields;
  }

  // ---- What the text functions mean ----

  function Join(ls: seq<string>): string
    requires |ls| >= 1
  {
    if |ls| == 1 then ls[0] else ls[0] + "\n" + Join(ls[1..])
  }

  ghost predicate NewlineFree(ls: seq<string>) {
    forall i :: 0 <= i < |ls| ==> '\n' !in ls[i]
  }

  /** Splitting and joining at newlines are inverse to each other. */
  lemma {:induction false} JoinOfLines(s: string)
    ensures Join(Lines(s)) == s && NewlineFree(Lines(s))
  {
    if s != "" {
      var ls := Lines(s[1..]);
      JoinOfLines(s[1..]);
      if s[0] == '\n' {
        assert ([""] + ls)[1..] == ls;
      } else {
        var ls' := [[s[0]] + ls[0]] + ls[1..];
        assert ls'[1..] == ls[1..];
        assert Join(ls') == [s[0]] + Join(ls);
      }
    }
  }

  lemma {:induction false} LinesOfJoin(ls: seq<string>)
    requires |ls| >= 1 && NewlineFree(ls)
    ensures Lines(Join(ls)) == ls
  {
    LinesOfOne(ls[0]);
    if |ls| > 1 {
      LinesOfJoin(ls[1..]);
      LinesAppend(ls[0], Join(ls[1..]));
    }
  }

  lemma {:induction false} LinesOfOne(s: string)
    requires '\n' !in s
    ensures Lines(s) == [s]
  {
    if s != "" {
      LinesOfOne(s[1..]);
      assert s == [s[0]] + s[1..];
    }
  }

  lemma {:induction false} LinesAppend(a: string, b: string)
    ensures Lines(a + "\n" + b) == Lines(a) + Lines(b)
  {
    var s := a + "\n" + b;
    if a == "" {
      assert s[1..] == b;
    } else {
      LinesAppend(a[1..], b);
      assert s[1..] == a[1..] + "\n" + b;
      ConsCharAppend(a[0], Lines(a[1..]), Lines(b));
    }
  }

  lemma ConsCharAppend(c: char, a: seq<string>, b: seq<string>)
    requires |a| >= 1
    ensures ConsChar(c, a + b) == ConsChar(c, a) + b
  {
    assert (a + b)[1..] == a[1..] + b;
  }

  /** Trimming takes off exactly the outer white space. */
  lemma TrimMeaning(s: string) returns (before: string, after: string)
    ensures s == before + Trim(s) + after && AllSpace(before) && AllSpace(after)
    ensures Trim(s) != "" ==> !IsSpace(Trim(s)[0]) && !IsSpace(Trim(s)[|Trim(s)| - 1])
  {
    before := TrimLeftMeaning(s);
    after := TrimRightMeaning(TrimLeft(s));
  }

  lemma {:induction false} TrimLeftMeaning(s: string) returns (before: string)
    ensures s == before + TrimLeft(s) && AllSpace(before)
    ensures TrimLeft(s) != "" ==> !IsSpace(TrimLeft(s)[0])
  {
    if s != "" && IsSpace(s[0]) {
      before := TrimLeftMeaning(s[1..]);
      before := [s[0]] + before;
    } else {
      before := "";
    }
  }

  lemma {:induction false} TrimRightMeaning(s: string) returns (after: string)
    ensures s == TrimRight(s) + after && AllSpace(after)
    ensures TrimRight(s) != "" ==> !IsSpace(TrimRight(s)[|TrimRight(s)| - 1])
  {
    if s != "" && IsSpace(s[|s| - 1]) {
      after := TrimRightMeaning(s[..|s| - 1]);
      assert s == (TrimRight(s) + after) + [s[|s| - 1]];
      after := after + [s[|s| - 1]];
    } else {
      after := "";
    }
  }

  // ---- What a text lists and allows ----

  predicate NoSpace(s: string) {
    forall i :: 0 <= i < |s| ==> !IsSpace(s[i])
  }

  /** The first word is the front of the text up to the first white space or the end. */
  lemma {:induction false} FirstWordMeaning(s: string)
    ensures FirstWord(s) <= s && NoSpace(FirstWord(s))
    ensures FirstWord(s) == s || IsSpace(s[|FirstWord(s)|])
  {
    if s != "" && !IsSpace(s[0]) {
      FirstWordMeaning(s[1..]);
    }
  }

  /** White space, then f, then the end of the line or white space and a remark. */
  predicate Padded(line: string, before: string, f: string, after: string) {
    line == before + (f + after) && AllSpace(before) && (after == "" || IsSpace(after[0]))
  }

  /** The line's first field is f: it is not empty, holds no white space and does not start a
      comment. */
  ghost predicate HasField(line: string, f: string) {
    && f != "" && f[0] != '#' && NoSpace(f)
    && exists before, after :: Padded(line, before, f, after)
  }

  /** What a line contributes, exactly. */
  lemma FieldExactly(line: string, f: string)
    ensures FieldOf(line) == Some(f) <==> HasField(line, f)
  {
    if FieldOf(line) == Some(f) {
      FieldIsPadded(line);
    }
    if HasField(line, f) {
      var before, after :| Padded(line, before, f, after);
      PaddedIsField(line, before, f, after);
    }
  }

  lemma FieldIsPadded(line: string)
    requires FieldOf(line).Some?
    ensures HasField(line, FieldOf(line).value)
  {
    var before, after := TrimMeaning(line);
    var t, f := Trim(line), FieldOf(line).value;
    FirstWordMeaning(t);
    var more := t[|f|..];
    Reassociate(before, f, more, after);
    assert t == f + more;
    assert more + after != "" ==> (more + after)[0] == if more != "" then more[0] else after[0];
    assert Padded(line, before, f, more + after);
  }

  lemma Reassociate(a: string, b: string, c: string, d: string)
    ensures a + (b + c) + d == a + (b + (c + d))
  {
  }

  lemma PaddedIsField(line: string, before: string, f: string, after: string)
    requires Padded(line, before, f, after) && f != "" && f[0] != '#' && NoSpace(f)
    ensures FieldOf(line) == Some(f)
  {
    TrimOfPadded(before, f + after);
    TrimmedKeepsFront(f, after);
    var t := TrimRight(f + after);
    assert t == f + t[|f|..];
    FirstWordOf(f, t[|f|..]);
  }

  lemma {:induction false} TrimOfPadded(before: string, s: string)
    requires AllSpace(before) && s != "" && !IsSpace(s[0])
    ensures TrimLeft(before + s) == s
  {
    if before == "" {
      assert before + s == s;
    } else {
      assert (before + s)[1..] == before[1..] + s;
      TrimOfPadded(before[1..], s);
    }
  }

  /** Trimming at the right leaves a word, and white space after it if anything. */
  lemma {:induction false} TrimmedKeepsFront(f: string, after: string)
    requires f != "" && NoSpace(f) && (after == "" || IsSpace(after[0]))
    ensures var t := TrimRight(f + after);
      f <= t && (t == f || IsSpace(t[|f|]))
    decreases |after|
  {
    var s := f + after;
    if after == "" {
      assert s == f;
    } else if IsSpace(s[|s| - 1]) {
      assert s[..|s| - 1] == f + after[..|after| - 1];
      TrimmedKeepsFront(f, after[..|after| - 1]);
    } else {
      assert s[|f|] == after[0];
    }
  }

  lemma {:induction false} FirstWordOf(f: string, after: string)
    requires NoSpace(f) && (after == "" || IsSpace(after[0]))
    ensures FirstWord(f + after) == f
  {
    if f == "" {
      assert f + after == after;
    } else {
      assert (f + after)[1..] == f[1..] + after;
      FirstWordOf(f[1..], after);
    }
  }

  /** White space is what Go's unicode package lists. */
  lemma SpaceTable(c: char)
    ensures IsSpace(c) <==> c as int in {
      9, 10, 11, 12, 13, 32, 133, 160, 5760, 8192, 8193, 8194, 8195, 8196, 8197, 8198, 8199,
      8200, 8201, 8202, 8232, 8233, 8239, 8287, 12288}
  {
  }

  /** What is listed is the first fields of the lines that are not blank or a comment. */
  lemma {:induction false} ListedExactly(lines: seq<string>, f: string)
    ensures f in FieldsOf(lines) <==> exists i :: 0 <= i < |lines| && HasField(lines[i], f)
  {
    if lines != [] {
      var n := |lines| - 1;
      ListedExactly(lines[..n], f);
      FieldExactly(lines[n], f);
      if i :| 0 <= i < n && HasField(lines[i], f) {
        assert lines[..n][i] == lines[i];
      }
    }
  }

  /** The field names the address: as a network that contains it if it has a slash, as an
      equal address otherwise; a field that does not parse names nothing. */
  predicate Names(net: Net, f: string, ip: bytes) {
    if '/' in f then net.parseCIDR(f).Some? && net.contains(net.parseCIDR(f).value, ip)
    else net.parseIP(f).Some? && net.equal(net.parseIP(f).value, ip)
  }

  /** Some entry covers the address. */
  ghost predicate Covered(net: Net, entries: seq<Entry>, ip: bytes) {
    exists i :: 0 <= i < |entries| && Covers(net, entries[i], ip)
  }

  /** The first field of some line names the address. */
  ghost predicate NamedIn(net: Net, lines: seq<string>, ip: bytes) {
    exists i, f :: 0 <= i < |lines| && HasField(lines[i], f) && Names(net, f, ip)
  }

  lemma {:induction false} CoveredExactly(net: Net, lines: seq<string>, ip: bytes)
    ensures Covered(net, ValidEntries(net, FieldsOf(lines)), ip) <==> NamedIn(net, lines, ip)
  {
    if lines != [] {
      var n := |lines| - 1;
      CoveredExactly(net, lines[..n], ip);
      CoveredSnoc(net, lines, ip);
      NamedSnoc(net, lines, ip);
    }
  }

  lemma NamedSnoc(net: Net, lines: seq<string>, ip: bytes)
    requires lines != []
    ensures var n := |lines| - 1;
      NamedIn(net, lines, ip) <==>
        || NamedIn(net, lines[..n], ip)
        || (FieldOf(lines[n]).Some? && Names(net, FieldOf(lines[n]).value, ip))
  {
    var n := |lines| - 1;
    if NamedIn(net, lines, ip) {
      var i, f :| 0 <= i < |lines| && HasField(lines[i], f) && Names(net, f, ip);
      FieldExactly(lines[i], f);
      assert i < n ==> lines[..n][i] == lines[i];
    }
    if NamedIn(net, lines[..n], ip) {
      var i, f :| 0 <= i < n && HasField(lines[..n][i], f) && Names(net, f, ip);
      assert HasField(lines[i], f);
    }
    if FieldOf(lines[n]).Some? {
      FieldExactly(lines[n], FieldOf(lines[n]).value);
    }
  }

  lemma CoveredSnoc(net: Net, lines: seq<string>, ip: bytes)
    requires lines != []
    ensures var n := |lines| - 1;
      Covered(net, ValidEntries(net, FieldsOf(lines)), ip) <==>
        || Covered(net, ValidEntries(net, FieldsOf(lines[..n])), ip)
        || (FieldOf(lines[n]).Some? && Names(net, FieldOf(lines[n]).value, ip))
  {
    var n := |lines| - 1;
    var front := ValidEntries(net, FieldsOf(lines[..n]));
    match FieldOf(lines[n])
    case None =>
    case Some(f) =>
      ValidEntriesSnoc(net, FieldsOf(lines[..n]), f);
      match ParseEntry(net, f) {
        case None => assert front + [] == front;
        case Some(e) => CoveredByOneMore(net, front, e, ip);
      }
  }

  lemma CoveredByOneMore(net: Net, entries: seq<Entry>, e: Entry, ip: bytes)
    ensures Covered(net, entries + [e], ip) <==> Covered(net, entries, ip) || Covers(net, e, ip)
  {
    if Covered(net, entries, ip) {
      var i :| 0 <= i < |entries| && Covers(net, entries[i], ip);
      assert (entries + [e])[i] == entries[i];
    }
    assert (entries + [e])[|entries|] == e;
  }

  /** The text of an access list allows an address exactly if the address parses and the
      first field of some line that is not blank or a comment names it. */
  lemma AllowedByText(net: Net, content: string, address: string)
    ensures Permits(net, Loaded(net, content), address) <==>
      net.parseIP(address).Some? && NamedIn(net, Lines(content), net.parseIP(address).value)
  {
    if net.parseIP(address).Some? {
      var ip := net.parseIP(address).value;
      CoveredExactly(net, Lines(content), ip);
      PermitsIsCovered(net, Loaded(net, content), address);
    }
  }

  lemma PermitsIsCovered(net: Net, entries: seq<Entry>, address: string)
    requires net.parseIP(address).Some?
    ensures Permits(net, entries, address) <==> Covered(net, entries, net.parseIP(address).value)
  {
  }

  // ---- One list made of two ----

  lemma {:induction false} FieldsOfAppend(a: seq<string>, b: seq<string>)
    ensures FieldsOf(a + b) == FieldsOf(a) + FieldsOf(b)
    decreases |b|
  {
    if b == [] {
      assert a + b == a;
    } else {
      FieldsOfAppend(a, b[..|b| - 1]);
      assert (a + b)[..|a + b| - 1] == a + b[..|b| - 1];
    }
  }

  lemma {:induction false} ValidEntriesAppend(net: Net, a: seq<string>, b: seq<string>)
    ensures ValidEntries(net, a + b) == ValidEntries(net, a) + ValidEntries(net, b)
    decreases |b|
  {
    if b == [] {
      assert a + b == a;
    } else {
      ValidEntriesAppend(net, a, b[..|b| - 1]);
      assert (a + b)[..|a + b| - 1] == a + b[..|b| - 1];
    }
  }

  function Loaded(net: Net, content: string): seq<Entry> {
    ValidEntries(net, Listed(content))
  }

  /** Putting one list's text after another's allows an address exactly when one of the two
      lists does. */
  lemma UnionOfLists(net: Net, a: string, b: string, address: string)
    ensures Listed(a + "\n" + b) == Listed(a) + Listed(b)
    ensures Permits(net, Loaded(net, a + "\n" + b), address)
       <==> Permits(net, Loaded(net, a), address) || Permits(net, Loaded(net, b), address)
  {
    LinesAppend(a, b);
    FieldsOfAppend(Lines(a), Lines(b));
    ValidEntriesAppend(net, Listed(a), Listed(b));
    PermitsAppend(net, Loaded(net, a), Loaded(net, b), address);
  }

  lemma PermitsAppend(net: Net, a: seq<Entry>, b: seq<Entry>, address: string)
    ensures Permits(net, a + b, address) <==> Permits(net, a, address) || Permits(net, b, address)
  {
    if Permits(net, a, address) {
      var ip := net.parseIP(address).value;
      var i :| 0 <= i < |a| && Covers(net, a[i], ip);
      assert (a + b)[i] == a[i];
    } else if Permits(net, b, address) {
      var ip := net.parseIP(address).value;
      var i :| 0 <= i < |b| && Covers(net, b[i], ip);
      assert (a + b)[|a| + i] == b[i];
    }
  }

  // ---- The wizard's text ----

  /** A comment line: the wording of the file's four comments is a parameter. */
  type Comment = s: string | s != "" && s[0] == '#' && !IsSpace(s[|s| - 1]) && '\n' !in s witness "#"

  datatype Comments = Comments(title: Comment, note: Comment, local: Comment, user: Comment)

  const LOOPBACK4 := "127.0.0.1"
  const LOOPBACK6 := "::1"

  function Header(c: Comments): seq<string> {
    [c.title, c.note, "", c.local, LOOPBACK4, LOOPBACK6]
  }

  /** Lines as Fprint writes them, each ended by a newline. */
  function Print(ls: seq<string>): string {
    if ls == [] then "" else Print(ls[..|ls| - 1]) + ls[|ls| - 1] + "\n"
  }

  function WizardLines(c: Comments, hosts: seq<string>): seq<string> {
    Header(c) + if |hosts| > 0 then ["", c.user] + hosts else []
  }

  /** The hosts the wizard collects: the trimmed answers up to the first blank one; none if
      the input ends before a blank answer (the process exits and writes no file). */
  function Answered(answers: seq<string>): Option<seq<string>> {
    if answers == [] then None
    else if Trim(answers[0]) == "" then Some([])
    else Prepend([Trim(answers[0])], Answered(answers[1..]))
  }

  /** The prompting loop; the process exits when the input ends before a blank answer. */
  method CollectHosts(answers: seq<string>) returns (userHosts: Option<seq<string>>)
    ensures userHosts == Answered(answers)
  {
    var hosts: seq<string> := [];
    var i := 0;
    assert answers[0..] == answers;
    PrependNothing(Answered(answers));
    while true
      invariant 0 <= i <= |answers|
      invariant Answered(answers) == Prepend(hosts, Answered(answers[i..]))
      decreases |answers| - i
    {
      if i == |answers| {
        return None;
      }
      var host := Trim(answers[i]);
      assert answers[i..][1..] == answers[i + 1..];
      if host == "" {
        assert hosts + [] == hosts;
        return Some(hosts);
      }
      PrependSnoc(hosts, host, Answered(answers[i + 1..]));
      hosts := hosts + [host];
      i := i + 1;
    }
  }

  function Prepend(hosts: seq<string>, more: Option<seq<string>>): Option<seq<string>> {
    match more
    case None => None
    case Some(rest) => Some(hosts + rest)
  }

  lemma PrependNothing(more: Option<seq<string>>)
    ensures Prepend([], more) == more
  {
    if more.Some? {
      assert [] + more.value == more.value;
    }
  }

  lemma PrependSnoc(hosts: seq<string>, host: string, more: Option<seq<string>>)
    ensures Prepend(hosts, Prepend([host], more)) == Prepend(hosts + [host], more)
  {
    if more.Some? {
      assert hosts + ([host] + more.value) == hosts + [host] + more.value;
    }
  }

  /** The file text, written line by line. */
  method WriteHosts(c: Comments, userHosts: seq<string>) returns (text: string)
    ensures text == Print(WizardLines(c, userHosts))
  {
    text := Print(Header(c));
    if |userHosts| > 0 {
      ghost var lines := Header(c) + [""] + [c.user];
      PrintSnoc(Header(c), "");
      PrintSnoc(Header(c) + [""], c.user);
      text := text + "" + "\n" + c.user + "\n";
      assert lines + userHosts[..0] == lines;
      for j := 0 to |userHosts|
        invariant text == Print(lines + userHosts[..j])
      {
        PrintSnoc(lines + userHosts[..j], userHosts[j]);
        assert lines + userHosts[..j + 1] == (lines + userHosts[..j]) + [userHosts[j]];
        text := text + userHosts[j] + "\n";
      }
      assert lines + userHosts[..|userHosts|] == WizardLines(c, userHosts);
    } else {
      assert WizardLines(c, userHosts) == Header(c);
    }
  }

  /** generateAccessList: collects hosts until a blank answer, then writes the file. */
  method GenerateAccessList(c: Comments, answers: seq<string>) returns (file: Option<string>)
    ensures match Answered(answers)
      case None => file == None
      case Some(hosts) => file == Some(Print(WizardLines(c, hosts)))
  {
    var userHosts := CollectHosts(answers);
    if userHosts.None? {
      return None;
    }
    var text := WriteHosts(c, userHosts.value);
    file := Some(text);
  }

  lemma PrintSnoc(ls: seq<string>, l: string)
    ensures Print(ls + [l]) == Print(ls) + l + "\n"
  {
    assert (ls + [l])[..|ls|] == ls;
  }

  /** Reading printed lines gives the lines back, and an empty one after the last newline. */
  lemma {:induction false} LinesOfPrint(ls: seq<string>)
    requires NewlineFree(ls)
    ensures Lines(Print(ls)) == ls + [""]
    decreases |ls|
  {
    if ls != [] {
      var front, last := ls[..|ls| - 1], ls[|ls| - 1];
      LinesOfPrint(front);
      LinesOfOne(last);
      LinesExtendLast(Print(front), last);
      assert "" + last == last && front + [last] == ls;
      assert ExtendLast(front + [""], last) == front + [last];
      LinesAppend(Print(front) + last, "");
      assert Print(ls) == (Print(front) + last) + "\n" + "";
    }
  }

  /** The lines with t put after the last one. */
  function ExtendLast(ls: seq<string>, t: string): (r: seq<string>)
    requires |ls| >= 1
    ensures |r| == |ls|
  {
    ls[..|ls| - 1] + [ls[|ls| - 1] + t]
  }

  lemma ConsCharExtend(c: char, ls: seq<string>, t: string)
    requires |ls| >= 1
    ensures ConsChar(c, ExtendLast(ls, t)) == ExtendLast(ConsChar(c, ls), t)
  {
    if |ls| == 1 {
      assert [c] + (ls[0] + t) == ([c] + ls[0]) + t;
    }
  }

  /** Text without a newline lengthens the last line. */
  lemma {:induction false} LinesExtendLast(s: string, t: string)
    requires '\n' !in t
    ensures Lines(s + t) == ExtendLast(Lines(s), t)
  {
    if s == "" {
      assert s + t == t;
      LinesOfOne(t);
    } else {
      LinesExtendLast(s[1..], t);
      assert (s + t)[1..] == s[1..] + t;
      ConsCharExtend(s[0], Lines(s[1..]), t);
    }
  }

  /** What setup can store: a trimmed, non-empty answer of one line. */
  predicate Answer(h: string) {
    h != "" && '\n' !in h && !IsSpace(h[0]) && !IsSpace(h[|h| - 1])
  }

  predicate Clean(h: string) {
    h != "" && h[0] != '#' && forall i :: 0 <= i < |h| ==> !IsSpace(h[i])
  }

  lemma TrimOfTrimmed(s: string)
    requires s != "" && !IsSpace(s[0]) && !IsSpace(s[|s| - 1])
    ensures Trim(s) == s
  {
  }

  /** A stored answer is listed as itself exactly when it is free of white space and does not
      start a comment. */
  lemma FieldOfAnswer(h: string)
    requires Answer(h)
    ensures FieldOf(h) == Some(h) <==> Clean(h)
  {
    TrimOfTrimmed(h);
    FirstWordMeaning(h);
  }

  lemma {:induction false} FieldsOfAnswers(hosts: seq<string>)
    requires forall i :: 0 <= i < |hosts| ==> Answer(hosts[i])
    ensures |FieldsOf(hosts)| <= |hosts|
    ensures FieldsOf(hosts) == hosts <==> forall i :: 0 <= i < |hosts| ==> Clean(hosts[i])
  {
    if hosts != [] {
      var n := |hosts| - 1;
      FieldsOfAnswers(hosts[..n]);
      FieldOfAnswer(hosts[n]);
      assert hosts == hosts[..n] + [hosts[n]];
      if FieldsOf(hosts) == hosts {
        assert |FieldsOf(hosts[..n])| == n;
        assert FieldsOf(hosts)[..n] == FieldsOf(hosts[..n]);
        assert FieldsOf(hosts)[n] == hosts[n];
      }
    }
  }

  lemma HeaderNewlineFree(c: Comments)
    ensures NewlineFree(Header(c)) && NewlineFree(Header(c) + ["", c.user])
  {
    assert '\n' !in LOOPBACK4 && '\n' !in LOOPBACK6;
  }

  lemma Loopback4Line()
    ensures FieldOf(LOOPBACK4) == Some(LOOPBACK4)
  {
    FieldOfAnswer(LOOPBACK4);
  }

  lemma Loopback6Line()
    ensures FieldOf(LOOPBACK6) == Some(LOOPBACK6)
  {
    FieldOfAnswer(LOOPBACK6);
  }

  lemma HeaderListed(c: Comments)
    ensures FieldsOf(Header(c)) == [LOOPBACK4, LOOPBACK6]
    ensures FieldsOf(["", c.user]) == []
  {
    CommentLine(c.title);
    CommentLine(c.note);
    CommentLine(c.local);
    CommentLine(c.user);
    Loopback4Line();
    Loopback6Line();
    FourCommentsTwoFields(c.title, c.note, "", c.local, LOOPBACK4, LOOPBACK6);
    FieldsOfTwo("", c.user);
  }

  lemma FourCommentsTwoFields(a: string, b: string, c: string, d: string, e: string, f: string)
    requires FieldOf(a) == FieldOf(b) == FieldOf(c) == FieldOf(d) == None
    requires FieldOf(e) == Some(e) && FieldOf(f) == Some(f)
    ensures FieldsOf([a, b, c, d, e, f]) == [e, f]
  {
    FieldsOfTwo(a, b);
    FieldsOfTwo(c, d);
    FieldsOfTwo(e, f);
    FieldsOfAppend([a, b], [c, d]);
    FieldsOfAppend([a, b] + [c, d], [e, f]);
    assert [a, b, c, d, e, f] == [a, b] + [c, d] + [e, f];
  }

  lemma FieldsOfTwo(a: string, b: string)
    ensures FieldsOf([a, b]) == (match FieldOf(a) case None => [] case Some(f) => [f])
      + (match FieldOf(b) case None => [] case Some(f) => [f])
  {
    FieldsOfOne(a);
    FieldsOfOne(b);
    FieldsOfAppend([a], [b]);
    assert [a, b] == [a] + [b];
  }

  lemma FieldsOfOne(a: string)
    ensures FieldsOf([a]) == match FieldOf(a) case None => [] case Some(f) => [f]
  {
    assert [a][..0] == [];
  }

  lemma CommentLine(s: Comment)
    ensures FieldOf(s) == None
  {
    TrimOfTrimmed(s);
  }

  /** The file's lines before the hosts. */
  lemma FrontListed(c: Comments, hosts: seq<string>) returns (front: seq<string>)
    ensures WizardLines(c, hosts) == front + hosts && NewlineFree(front)
    ensures FieldsOf(front) == [LOOPBACK4, LOOPBACK6]
  {
    front := if |hosts| > 0 then Header(c) + ["", c.user] else Header(c);
    HeaderNewlineFree(c);
    LongHeaderListed(c);
    assert |hosts| == 0 ==> WizardLines(c, hosts) == front + hosts;
  }

  lemma LongHeaderListed(c: Comments)
    ensures FieldsOf(Header(c)) == FieldsOf(Header(c) + ["", c.user]) == [LOOPBACK4, LOOPBACK6]
  {
    HeaderListed(c);
    FieldsOfAppend(Header(c), ["", c.user]);
  }

  /** Listing the wizard's file gives the two loopback addresses and then the user's hosts,
      if and only if every host is free of white space and does not start with '#'. */
  lemma WizardListed(c: Comments, hosts: seq<string>)
    requires forall i :: 0 <= i < |hosts| ==> Answer(hosts[i])
    ensures Listed(Print(WizardLines(c, hosts))) == [LOOPBACK4, LOOPBACK6] + hosts
       <==> forall i :: 0 <= i < |hosts| ==> Clean(hosts[i])
  {
    var front := FrontListed(c, hosts);
    LinesOfPrint(front + hosts);
    FieldsOfAppend(front, hosts);
    FieldsOfAppend(front + hosts, [""]);
    FieldsOfOne("");
    FieldsOfAnswers(hosts);
    SameTail([LOOPBACK4, LOOPBACK6], FieldsOf(hosts), hosts);
  }

  lemma SameTail(a: seq<string>, b: seq<string>, c: seq<string>)
    ensures a + b == a + c <==> b == c
  {
    assert (a + b)[|a|..] == b && (a + c)[|a|..] == c;
  }

  /** What the wizard stores meets Answer, when each input line is a single line. */
  lemma {:induction false} AnsweredAreAnswers(answers: seq<string>)
    requires NewlineFree(answers) && Answered(answers).Some?
    ensures forall h :: h in Answered(answers).value ==> Answer(h)
  {
    if Trim(answers[0]) != "" {
      AnsweredAreAnswers(answers[1..]);
      var before, after := TrimMeaning(answers[0]);
      assert forall i :: 0 <= i < |Trim(answers[0])| ==>
          Trim(answers[0])[i] == answers[0][|before| + i];
    }
  }

  /** The first n answers are the hosts, trimmed and none blank, and the next one is blank. */
  predicate BlankAfter(answers: seq<string>, hosts: seq<string>, n: nat) {
    && n < |answers| && Trim(answers[n]) == "" && |hosts| == n
    && forall i :: 0 <= i < n ==> hosts[i] == Trim(answers[i]) && hosts[i] != ""
  }

  /** What the wizard collects, exactly: every answer before the first blank one. */
  lemma {:induction false} AnsweredExactly(answers: seq<string>, hosts: seq<string>)
    ensures Answered(answers) == Some(hosts) <==> BlankAfter(answers, hosts, |hosts|)
  {
    if answers != [] && Trim(answers[0]) != "" && hosts != [] {
      AnsweredExactly(answers[1..], hosts[1..]);
      AnsweredStep(answers, hosts);
    }
  }

  lemma AnsweredStep(answers: seq<string>, hosts: seq<string>)
    requires answers != [] && Trim(answers[0]) != "" && hosts != []
    ensures Answered(answers) == Some(hosts) <==>
      hosts[0] == Trim(answers[0]) && Answered(answers[1..]) == Some(hosts[1..])
    ensures BlankAfter(answers, hosts, |hosts|) <==>
      hosts[0] == Trim(answers[0]) && BlankAfter(answers[1..], hosts[1..], |hosts| - 1)
  {
    if hosts[0] == Trim(answers[0]) {
      assert hosts == [hosts[0]] + hosts[1..];
    }
    if BlankAfter(answers[1..], hosts[1..], |hosts| - 1) {
      assert forall i :: 1 <= i < |hosts| ==>
        hosts[i] == hosts[1..][i - 1] && answers[i] == answers[1..][i - 1];
    }
  }
}
