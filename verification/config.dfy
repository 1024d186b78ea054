/**
 * The INI-style configuration reader: `trim_whitespace` over a caller's
 * buffer, the per-line loop of `parse_config` over lines already read, and
 * `get_config_value`. The table is a list of sections, each a list of
 * key/value entries, in file order.
 */
module Config {
  import opened Wrappers
  import opened CStrings

  /** Sizes of the fixed name fields (`MAX_SECTION_NAME_LENGTH`, `MAX_KEY_NAME_LENGTH`, `MAX_VALUE_LENGTH`). */
  const MAX_SECTION_NAME_LENGTH: nat := 50
  const MAX_KEY_NAME_LENGTH: nat := 50
  const MAX_VALUE_LENGTH: nat := 100

  /** `isspace` in the C locale: space, tab, newline, vertical tab, form feed, carriage return. */
  predicate IsSpace(c: char) {
    c == ' ' || c == '\t' || c == '\n' || c == '\U{0B}' || c == '\U{0C}' || c == '\r'
  }

  predicate AllSpace(s: string) {
    forall i :: 0 <= i < |s| ==> IsSpace(s[i])
  }

  /** Drops whitespace from the end. */
  function TrimEnd(s: string): (r: string)
    ensures r <= s && AllSpace(s[|r|..])
    ensures r == [] ==> AllSpace(s)
    ensures r != [] ==> !IsSpace(r[|r| - 1])
  {
    if s == [] || !IsSpace(s[|s| - 1]) then s
    else
      var r := TrimEnd(s[..|s| - 1]);
      assert s[|r|..] == s[..|s| - 1][|r|..] + [s[|s| - 1]];
      r
  }

  /**
   * What trim_whitespace leaves in the buffer: the leading-whitespace skip only
   * moves a local pointer, so only trailing whitespace goes, and a string with
   * nothing but whitespace is returned before anything is written.
   */
  function Trimmed(s: string): (r: string)
    ensures r <= s && AllSpace(s[|r|..])
    ensures AllSpace(s) ==> r == s
    ensures !AllSpace(s) ==> |r| > 0 && !IsSpace(r[|r| - 1])
  {
    if AllSpace(s) then s else TrimEnd(s)
  }

  /** The last non-space character decides where the trimmed string ends. */
  lemma TrimmedAt(s: string, j: nat)
    requires j < |s| && !IsSpace(s[j]) && AllSpace(s[j + 1..])
    ensures Trimmed(s) == s[..j + 1]
  {
    var r := Trimmed(s);
    assert !AllSpace(s) by { assert !IsSpace(s[j]); }
  }

  /** Trimming twice is trimming once. */
  lemma TrimmedIdempotent(s: string)
    ensures Trimmed(Trimmed(s)) == Trimmed(s)
  {
    var r := Trimmed(s);
    if !AllSpace(s) {
      TrimmedAt(r, |r| - 1);
      assert r[..|r|] == r;
    }
  }

  /**
   * Leading whitespace survives: unless the string is all whitespace, every
   * whitespace character before the first other one is still there.
   */
  lemma TrimmedKeepsLeading(s: string, k: nat)
    requires k <= |s| && AllSpace(s[..k]) && !AllSpace(s)
    ensures k < |Trimmed(s)| && Trimmed(s)[..k] == s[..k]
  {
    var r := Trimmed(s);
    if |r| <= k {
      forall i | 0 <= i < |s|
        ensures IsSpace(s[i])
      {
        if i < k { assert s[..k][i] == s[i]; } else { assert s[|r|..][i - |r|] == s[i]; }
      }
      assert false;
    }
    assert r[..k] == s[..k];
  }

  /** Whitespace that the string does not end with is never dropped: only a whitespace tail goes. */
  lemma TrimmedDropsOnlyTrailing(s: string)
    ensures s == Trimmed(s) + s[|Trimmed(s)|..] && AllSpace(s[|Trimmed(s)|..])
    ensures |s| > 0 && !IsSpace(s[|s| - 1]) ==> Trimmed(s) == s
  {
    if |s| > 0 && !IsSpace(s[|s| - 1]) {
      TrimmedAt(s, |s| - 1);
      assert s[..|s|] == s;
    }
  }

  /**
   * trim_whitespace over a caller's buffer: the string it holds becomes its
   * trimmed form, by one NUL written just after the last non-space character;
   * no other byte changes, and an all-whitespace string is left alone.
   */
  method TrimWhitespace(buf: array<char>)
    requires Terminated(buf[..])
    modifies buf
    ensures Terminated(buf[..]) && CStr(buf[..]) == Trimmed(old(CStr(buf[..])))
    ensures forall i :: 0 <= i < buf.Length && i != |Trimmed(old(CStr(buf[..])))| ==> buf[i] == old(buf[i])
  {
    ghost var s := CStr(buf[..]);
    var n := StrlenOf(buf);
    var start := SkipSpaces(buf, n);
    if start == n {
      assert s == buf[..n];
      return;
    }
    var end := LastNonSpace(buf, start, n);
    assert s[end + 1..] == buf[end + 1..n];
    TrimmedAt(s, end);
    buf[end + 1] := '\0';
    StrlenAt(buf[..], end + 1);
    assert buf[..end + 1] == s[..end + 1];
  }

  /** The leading-whitespace skip: the index of the first non-space character, or the length. */
  method SkipSpaces(buf: array<char>, n: nat) returns (start: nat)
    requires Terminated(buf[..]) && n == Strlen(buf[..])
    ensures start <= n && AllSpace(buf[..start])
    ensures start < n ==> !IsSpace(buf[start])
  {
    start := 0;
    while start < n && IsSpace(buf[start])
      invariant 0 <= start <= n
      invariant AllSpace(buf[..start])
    {
      assert buf[..start + 1] == buf[..start] + [buf[start]];
      start := start + 1;
    }
  }

  /** The backward scan from the last character, stopping at a non-space one (at `start` at the latest). */
  method LastNonSpace(buf: array<char>, start: nat, n: nat) returns (end: nat)
    requires start < n <= buf.Length && !IsSpace(buf[start])
    ensures start <= end < n && !IsSpace(buf[end]) && AllSpace(buf[end + 1..n])
  {
    end := n - 1;
    while end > start && IsSpace(buf[end])
      invariant start <= end < n
      invariant AllSpace(buf[end + 1..n])
    {
      assert buf[end..n] == [buf[end]] + buf[end + 1..n];
      end := end - 1;
    }
  }

  /** strlen over a buffer. */
  method StrlenOf(buf: array<char>) returns (n: nat)
    requires Terminated(buf[..])
    ensures n == Strlen(buf[..])
  {
    n := 0;
    while buf[n] != '\0'
      invariant n <= Strlen(buf[..])
      invariant '\0' !in buf[..n]
      decreases Strlen(buf[..]) - n
    {
      assert buf[..n + 1] == buf[..n] + [buf[n]];
      n := n + 1;
    }
    StrlenAt(buf[..], n);
  }

  /** strncpy from `src + from` into a fresh buffer of `size` bytes, for a string that fits. */
  method Strncpy(src: array<char>, from: nat, size: nat) returns (dst: array<char>)
    requires from <= src.Length && Terminated(src[from..]) && Strlen(src[from..]) < size
    ensures fresh(dst) && dst.Length == size
    ensures Terminated(dst[..]) && CStr(dst[..]) == CStr(src[from..])
  {
    ghost var s := CStr(src[from..]);
    var n := Strlen(src[from..]);
    dst := new char[size];
    var i := 0;
    while i < size
      invariant 0 <= i <= size
      invariant forall k :: 0 <= k < i && k < n ==> dst[k] == s[k]
      invariant forall k :: n <= k < i ==> dst[k] == '\0'
    {
      if i < n {
        dst[i] := src[from + i];
      } else {
        dst[i] := '\0';
      }
      i := i + 1;
    }
    assert dst[..n] == s;
    StrlenAt(dst[..], n);
  }

  /** One `key=value` line of a section. */
  datatype Entry = Entry(key: string, value: string)

  /** A `[name]` header and the entries that follow it. */
  datatype Section = Section(name: string, entries: seq<Entry>)

  predicate IsSectionHeader(t: string) {
    |t| > 0 && t[0] == '[' && t[|t| - 1] == ']'
  }

  /**
   * The effect of one line on the table, as parse_config's loop body has it,
   * given the line's trimmed text t: blank and '#' lines are skipped; `[name]`
   * appends a section named by the inner text, trimmed; before the first
   * section other lines are ignored; otherwise a line with '=' appends an entry
   * to the last section, split at the first '=', both halves trimmed.
   */
  function ApplyTrimmed(sections: seq<Section>, t: string): seq<Section> {
    if |t| == 0 || t[0] == '#' then sections
    else if IsSectionHeader(t) then sections + [Section(Trimmed(t[1..|t| - 1]), [])]
    else if sections == [] then sections
    else
      match SplitAt(t, '=')
      case None => sections
      case Some((k, v)) =>
        var last := sections[|sections| - 1];
        sections[..|sections| - 1] + [Section(last.name, last.entries + [Entry(Trimmed(k), Trimmed(v))])]
  }

  /** The effect of one line: trim_whitespace first, then the cases above. */
  function ApplyLine(sections: seq<Section>, line: string): seq<Section> {
    ApplyTrimmed(sections, Trimmed(line))
  }

  /** The table after the given lines, in order. */
  function ParseLines(lines: seq<string>): seq<Section> {
    if lines == [] then [] else ApplyLine(ParseLines(lines[..|lines| - 1]), lines[|lines| - 1])
  }

  /**
   * The fixed name fields hold the text a line copies into them: a section name
   * under 50 bytes, and, once a section is open, a key under 50 and a value
   * under 100 bytes (a copy of the full size would leave no NUL).
   */
  predicate TrimmedFits(sectionOpen: bool, t: string) {
    if |t| == 0 || t[0] == '#' then true
    else if IsSectionHeader(t) then |t| - 2 < MAX_SECTION_NAME_LENGTH
    else if !sectionOpen then true
    else
      match SplitAt(t, '=')
      case None => true
      case Some((k, v)) => |k| < MAX_KEY_NAME_LENGTH && |v| < MAX_VALUE_LENGTH
  }

  predicate LineFits(sectionOpen: bool, line: string) {
    TrimmedFits(sectionOpen, Trimmed(line))
  }

  predicate LinesFit(lines: seq<string>) {
    forall i :: 0 <= i < |lines| ==> LineFits(ParseLines(lines[..i]) != [], lines[i])
  }

  /** The value of the first entry with the given key. */
  function EntryValue(entries: seq<Entry>, key: string): Option<string> {
    if entries == [] then None
    else if entries[0].key == key then Some(entries[0].value)
    else EntryValue(entries[1..], key)
  }

  /** get_config_value: sections with the name in file order, the first entry with the key in each. */
  function Lookup(sections: seq<Section>, name: string, key: string): Option<string> {
    if sections == [] then None
    else if sections[0].name == name && EntryValue(sections[0].entries, key).Some? then
      EntryValue(sections[0].entries, key)
    else Lookup(sections[1..], name, key)
  }

  /** Entry j of section i answers the query. */
  predicate Matches(sections: seq<Section>, name: string, key: string, i: int, j: int) {
    && 0 <= i < |sections| && sections[i].name == name
    && 0 <= j < |sections[i].entries| && sections[i].entries[j].key == key
  }

  lemma {:induction false} EntryValueFirst(entries: seq<Entry>, key: string)
    ensures EntryValue(entries, key).None? <==> forall j :: 0 <= j < |entries| ==> entries[j].key != key
    ensures EntryValue(entries, key).Some? ==>
      exists j :: 0 <= j < |entries| && entries[j].key == key && EntryValue(entries, key).value == entries[j].value
        && forall j2 :: 0 <= j2 < j ==> entries[j2].key != key
    decreases |entries|
  {
    if entries != [] {
      EntryValueFirst(entries[1..], key);
      if entries[0].key != key && EntryValue(entries, key).Some? {
        var j :| 0 <= j < |entries[1..]| && entries[1..][j].key == key
          && EntryValue(entries[1..], key).value == entries[1..][j].value
          && forall j2 :: 0 <= j2 < j ==> entries[1..][j2].key != key;
        assert entries[j + 1].key == key;
        forall j2 | 0 <= j2 < j + 1
          ensures entries[j2].key != key
        {
          if j2 > 0 { assert entries[j2] == entries[1..][j2 - 1]; }
        }
      }
      if EntryValue(entries, key).None? {
        forall j | 0 <= j < |entries|
          ensures entries[j].key != key
        {
          if j > 0 { assert entries[j] == entries[1..][j - 1]; }
        }
      }
    }
  }

  /**
   * Lookup finds nothing exactly when no section of that name has the key, and
   * otherwise returns the value of the first match: earliest section, then
   * earliest entry in it.
   */
  lemma {:induction false} LookupFirstMatch(sections: seq<Section>, name: string, key: string)
    ensures Lookup(sections, name, key).None? <==> forall i, j :: !Matches(sections, name, key, i, j)
    ensures Lookup(sections, name, key).Some? ==>
      exists i, j :: Matches(sections, name, key, i, j)
        && Lookup(sections, name, key).value == sections[i].entries[j].value
        && forall i2, j2 :: Matches(sections, name, key, i2, j2) ==> i < i2 || (i == i2 && j <= j2)
    decreases |sections|
  {
    if sections != [] {
      var s := sections[0];
      EntryValueFirst(s.entries, key);
      LookupFirstMatch(sections[1..], name, key);
      forall i, j | Matches(sections[1..], name, key, i, j)
        ensures Matches(sections, name, key, i + 1, j)
      {
      }
      forall i, j | Matches(sections, name, key, i, j) && i > 0
        ensures Matches(sections[1..], name, key, i - 1, j)
      {
      }
      if s.name == name && EntryValue(s.entries, key).Some? {
        var j :| 0 <= j < |s.entries| && s.entries[j].key == key && EntryValue(s.entries, key).value == s.entries[j].value
          && forall j2 :: 0 <= j2 < j ==> s.entries[j2].key != key;
        assert Matches(sections, name, key, 0, j);
      } else {
        assert forall j :: !Matches(sections, name, key, 0, j);
        if Lookup(sections, name, key).Some? {
          var i, j :| Matches(sections[1..], name, key, i, j)
            && Lookup(sections[1..], name, key).value == sections[1..][i].entries[j].value
            && forall i2, j2 :: Matches(sections[1..], name, key, i2, j2) ==> i < i2 || (i == i2 && j <= j2);
          assert Matches(sections, name, key, i + 1, j);
        }
      }
    }
  }

  /**
   * A table that grew the way lines grow it: sections appended, entries
   * appended to the last section, nothing else touched.
   */
  predicate Extends(before: seq<Section>, after: seq<Section>) {
    && |before| <= |after|
    && (forall i :: 0 <= i < |before| - 1 ==> after[i] == before[i])
    && (|before| > 0 ==>
          after[|before| - 1].name == before[|before| - 1].name
          && before[|before| - 1].entries <= after[|before| - 1].entries)
  }

  /** `after` is `before` with one more section, which has no entries yet. */
  predicate AppendsSection(before: seq<Section>, after: seq<Section>) {
    |after| == |before| + 1 && after[..|before|] == before && after[|before|].entries == []
  }

  /** `after` is `before` with one more entry at the end of its last section. */
  predicate AppendsEntry(before: seq<Section>, after: seq<Section>) {
    && |before| > 0 && |after| == |before|
    && after[..|before| - 1] == before[..|before| - 1]
    && var was := before[|before| - 1];
       var now := after[|before| - 1];
       now.name == was.name && |now.entries| == |was.entries| + 1 && now.entries[..|was.entries|] == was.entries
  }

  /**
   * Each line leaves every section but the last untouched, and changes the
   * table only by appending one section or by appending one entry to the last.
   */
  lemma ApplyLineExtends(sections: seq<Section>, line: string)
    ensures Extends(sections, ApplyLine(sections, line))
    ensures var after := ApplyLine(sections, line);
      || after == sections
      || AppendsSection(sections, after)
      || AppendsEntry(sections, after)
  {
  }

  lemma ExtendsTransitive(a: seq<Section>, b: seq<Section>, c: seq<Section>)
    requires Extends(a, b) && Extends(b, c)
    ensures Extends(a, c)
  {
    if |a| > 0 && |b| > |a| {
      assert c[|a| - 1] == b[|a| - 1];
    }
  }

  lemma {:induction false} EntryValueStable(entries: seq<Entry>, more: seq<Entry>, key: string)
    requires EntryValue(entries, key).Some? && entries <= more
    ensures EntryValue(more, key) == EntryValue(entries, key)
    decreases |entries|
  {
    if entries[0].key != key {
      EntryValueStable(entries[1..], more[1..], key);
    }
  }

  /** A value already found stays the answer however the table grows. */
  lemma {:induction false} LookupStable(before: seq<Section>, after: seq<Section>, name: string, key: string)
    requires Extends(before, after) && Lookup(before, name, key).Some?
    ensures Lookup(after, name, key) == Lookup(before, name, key)
    decreases |before|
  {
    var s := before[0];
    if |before| == 1 {
      EntryValueStable(s.entries, after[0].entries, key);
    } else if s.name == name && EntryValue(s.entries, key).Some? {
      assert after[0] == s;
    } else {
      assert after[0] == s;
      LookupStable(before[1..], after[1..], name, key);
    }
  }

  /** The table after more lines extends the table after fewer. */
  lemma {:induction false} ParseLinesExtends(lines: seq<string>, more: seq<string>)
    ensures Extends(ParseLines(lines), ParseLines(lines + more))
    decreases |more|
  {
    if more == [] {
      assert lines + more == lines;
    } else {
      var all := lines + more;
      var front := lines + more[..|more| - 1];
      assert all[..|all| - 1] == front;
      ParseLinesExtends(lines, more[..|more| - 1]);
      ApplyLineExtends(ParseLines(front), all[|all| - 1]);
      ExtendsTransitive(ParseLines(lines), ParseLines(front), ParseLines(all));
    }
  }

  /** Duplicate keys: the first one in the file wins, whatever lines follow. */
  lemma FirstValueWins(lines: seq<string>, more: seq<string>, name: string, key: string)
    requires Lookup(ParseLines(lines), name, key).Some?
    ensures Lookup(ParseLines(lines + more), name, key) == Lookup(ParseLines(lines), name, key)
  {
    ParseLinesExtends(lines, more);
    LookupStable(ParseLines(lines), ParseLines(lines + more), name, key);
  }

  /** A key line under an open section appends the trimmed pair to the last section. */
  lemma KeyLineAppends(sections: seq<Section>, line: string, k: string, v: string)
    requires sections != []
    requires var t := Trimmed(line);
      |t| > 0 && t[0] != '#' && !IsSectionHeader(t) && SplitAt(t, '=') == Some((k, v))
    ensures var last := sections[|sections| - 1];
      ApplyLine(sections, line) == sections[..|sections| - 1] + [Section(last.name, last.entries + [Entry(Trimmed(k), Trimmed(v))])]
  {
  }

  /** An entry appended to the last section answers for its key there, unless an earlier entry already does. */
  lemma {:induction false} LookupAppendedEntry(front: seq<Section>, last: Section, e: Entry)
    requires Lookup(front + [last], last.name, e.key).None?
    ensures Lookup(front + [Section(last.name, last.entries + [e])], last.name, e.key) == Some(e.value)
    decreases |front|
  {
    var grown := Section(last.name, last.entries + [e]);
    EntryValueFirst(last.entries, e.key);
    EntryValueFirst(grown.entries, e.key);
    assert grown.entries[|last.entries|] == e;
    if front == [] {
      assert [last][1..] == [] && [grown][1..] == [];
    } else {
      assert (front + [last])[1..] == front[1..] + [last];
      assert (front + [grown])[1..] == front[1..] + [grown];
      LookupAppendedEntry(front[1..], last, e);
    }
  }

  /**
   * A `key=value` line under an open section makes the trimmed value the answer
   * for the trimmed key in that section, unless an earlier entry already answers.
   */
  lemma {:induction false} KeyLineIsFound(sections: seq<Section>, line: string, k: string, v: string)
    requires sections != []
    requires var t := Trimmed(line);
      |t| > 0 && t[0] != '#' && !IsSectionHeader(t) && SplitAt(t, '=') == Some((k, v))
    requires Lookup(sections, sections[|sections| - 1].name, Trimmed(k)).None?
    ensures Lookup(ApplyLine(sections, line), sections[|sections| - 1].name, Trimmed(k)) == Some(Trimmed(v))
  {
    var n := |sections|;
    KeyLineAppends(sections, line, k, v);
    assert sections == sections[..n - 1] + [sections[n - 1]];
    LookupAppendedEntry(sections[..n - 1], sections[n - 1], Entry(Trimmed(k), Trimmed(v)));
  }

  /** A line `k=v` that trimming leaves alone, under an open section, appends the entry as written. */
  lemma UntrimmedKeyLine(sections: seq<Section>, k: string, v: string)
    requires sections != [] && |k| > 0 && k[0] != '#' && k[0] != '[' && '=' !in k
    requires Trimmed(k + "=" + v) == k + "=" + v && Trimmed(k) == k && Trimmed(v) == v
    ensures var last := sections[|sections| - 1];
      ApplyLine(sections, k + "=" + v) == sections[..|sections| - 1] + [Section(last.name, last.entries + [Entry(k, v)])]
  {
    var line := k + "=" + v;
    assert line == k + ['='] + v && line[0] == k[0];
    SplitAtFirst(k, '=', v);
    KeyLineAppends(sections, line, k, v);
  }

  /** A '#' indented by whitespace is not a comment: trimming keeps the indent, so the line is read as a key. */
  lemma IndentedCommentIsAnEntry()
    ensures ApplyLine([Section("s", [])], " #k=v") == [Section("s", [Entry(" #k", "v")])]
  {
    TrimmedAt(" #k=v", 4);
    assert " #k=v"[..5] == " #k=v";
    TrimmedAt(" #k", 2);
    assert " #k"[..3] == " #k";
    TrimmedAt("v", 0);
    assert "v"[..1] == "v";
    assert " #k" + "=" + "v" == " #k=v";
    UntrimmedKeyLine([Section("s", [])], " #k", "v");
    assert [Entry(" #k", "v")] == [] + [Entry(" #k", "v")];
  }

  /** The split is at the first '=', so a value may itself hold '='. */
  lemma ValueKeepsLaterEquals()
    ensures ApplyLine([Section("s", [])], "k=a=b") == [Section("s", [Entry("k", "a=b")])]
  {
    TrimmedAt("k=a=b", 4);
    assert "k=a=b"[..5] == "k=a=b";
    TrimmedAt("k", 0);
    assert "k"[..1] == "k";
    TrimmedAt("a=b", 2);
    assert "a=b"[..3] == "a=b";
    assert "k" + "=" + "a=b" == "k=a=b";
    UntrimmedKeyLine([Section("s", [])], "k", "a=b");
    assert [Entry("k", "a=b")] == [] + [Entry("k", "a=b")];
  }

  /** The first '=' of t at index d splits t into the text before it and the text after it. */
  lemma SplitAtDelimiter(t: string, d: nat)
    requires d < |t| && t[d] == '=' && '=' !in t[..d]
    ensures SplitAt(t, '=') == Some((t[..d], t[d + 1..]))
  {
    assert t == t[..d] + ['='] + t[d + 1..];
    SplitAtFirst(t[..d], '=', t[d + 1..]);
  }

  /** A trimmed key line whose first '=' is at index d, under an open section. */
  lemma EntryLine(sections: seq<Section>, t: string, d: nat)
    requires sections != [] && |t| > 0 && t[0] != '#' && !IsSectionHeader(t)
    requires d < |t|
    requires SplitAt(t, '=') == Some((t[..d], t[d + 1..]))
    ensures var last := sections[|sections| - 1];
      ApplyTrimmed(sections, t) == sections[..|sections| - 1]
        + [Section(last.name, last.entries + [Entry(Trimmed(t[..d]), Trimmed(t[d + 1..]))])]
  {
  }

  /** The `st_config_file_t` parse_config fills in. */
  class ConfigFile {
    var sections: seq<Section>

    constructor ()
      ensures sections == []
    {
      sections := [];
    }

    /**
     * parse_config over the lines fgets would return. When the file cannot be
     * opened it returns -1 and leaves the table alone; otherwise the table is
     * reset and every line applied in order.
     */
    method ParseConfig(lines: seq<CString>, fileOpened: bool) returns (status: int)
      requires fileOpened ==> LinesFit(lines)
      modifies this
      ensures !fileOpened ==> status == -1 && sections == old(sections)
      ensures fileOpened ==> status == 0 && sections == ParseLines(lines)
    {
      if !fileOpened {
        return -1;
      }
      sections := [];
      var i := 0;
      while i < |lines|
        invariant 0 <= i <= |lines|
        invariant sections == ParseLines(lines[..i])
      {
        assert LineFits(ParseLines(lines[..i]) != [], lines[i]);
        ProcessLine(lines[i]);
        assert lines[..i + 1][..i] == lines[..i];
        i := i + 1;
      }
      assert lines[..i] == lines;
      return 0;
    }

    /** The loop body of parse_config for one line, over a line buffer. */
    method ProcessLine(line: CString)
      requires LineFits(sections != [], line)
      modifies this
      ensures sections == ApplyLine(old(sections), line)
    {
      var buf := new char[|line| + 1](i => if 0 <= i < |line| then line[i] else '\0');
      assert buf[..|line|] == line;
      StrlenAt(buf[..], |line|);
      TrimWhitespace(buf);
      var len := StrlenOf(buf);
      ProcessTrimmed(buf, len, Trimmed(line));
    }

    /** The loop body after trim_whitespace, on the trimmed text t the buffer holds. */
    method ProcessTrimmed(buf: array<char>, len: nat, ghost t: string)
      requires len < buf.Length && buf[..len] == t && buf[len] == '\0' && '\0' !in t
      requires TrimmedFits(sections != [], t)
      modifies this, buf
      ensures sections == ApplyTrimmed(old(sections), t)
    {
      if len == 0 || buf[0] == '#' {
        return;
      }
      if buf[0] == '[' && buf[len - 1] == ']' {
        AddSection(buf, len, t);
      } else if sections != [] {
        StrlenAt(buf[..], len);
        var d := Strchr(buf, '=');
        if d < len {
          ghost var before := sections;
          SplitAtDelimiter(t, d);
          AddEntry(buf, len, d, t);
          EntryLine(before, t, d);
        } else {
          assert t[..d] == t;
        }
      }
    }

    /** A `[name]` line: the inner text, copied into the name field and trimmed, opens a new section. */
    method AddSection(buf: array<char>, len: nat, ghost t: string)
      requires len < buf.Length && buf[..len] == t && buf[len] == '\0' && '\0' !in t
      requires IsSectionHeader(t) && |t| - 2 < MAX_SECTION_NAME_LENGTH
      modifies this, buf
      ensures sections == old(sections) + [Section(Trimmed(t[1..|t| - 1]), [])]
    {
      buf[len - 1] := '\0';
      assert buf[1..][..len - 2] == t[1..len - 1];
      StrlenAt(buf[1..], len - 2);
      var nameBuf := Strncpy(buf, 1, MAX_SECTION_NAME_LENGTH);
      TrimWhitespace(nameBuf);
      sections := sections + [Section(CStr(nameBuf[..]), [])];
    }

    /** A `key=value` line under an open section, split at its first '=' (index d). */
    method AddEntry(buf: array<char>, len: nat, d: nat, ghost t: string)
      requires sections != []
      requires len < buf.Length && buf[..len] == t && buf[len] == '\0' && '\0' !in t
      requires d < len && t[d] == '=' && '=' !in t[..d]
      requires d < MAX_KEY_NAME_LENGTH && len - d - 1 < MAX_VALUE_LENGTH
      modifies this, buf
      ensures var last := old(sections)[|old(sections)| - 1];
        sections == old(sections)[..|old(sections)| - 1]
          + [Section(last.name, last.entries + [Entry(Trimmed(t[..d]), Trimmed(t[d + 1..]))])]
    {
      buf[d] := '\0';
      assert buf[..d] == t[..d];
      StrlenAt(buf[..], d);
      assert buf[d + 1..][..len - d - 1] == t[d + 1..];
      StrlenAt(buf[d + 1..], len - d - 1);
      var keyBuf := Strncpy(buf, 0, MAX_KEY_NAME_LENGTH);
      var valueBuf := Strncpy(buf, d + 1, MAX_VALUE_LENGTH);
      TrimWhitespace(keyBuf);
      TrimWhitespace(valueBuf);
      var last := sections[|sections| - 1];
      sections := sections[..|sections| - 1]
        + [Section(last.name, last.entries + [Entry(CStr(keyBuf[..]), CStr(valueBuf[..]))])];
    }

    /**
     * get_config_value: the nested scan over sections and their entries. It
     * reads the table only.
     */
    method GetConfigValue(section: CString, key: CString) returns (r: Option<string>)
      ensures r == Lookup(sections, section, key)
    {
      var i := 0;
      while i < |sections|
        invariant 0 <= i <= |sections|
        invariant Lookup(sections[i..], section, key) == Lookup(sections, section, key)
      {
        var s := sections[i];
        assert sections[i..][1..] == sections[i + 1..];
        if s.name == section {
          var j := 0;
          while j < |s.entries|
            invariant 0 <= j <= |s.entries|
            invariant EntryValue(s.entries[j..], key) == EntryValue(s.entries, key)
          {
            assert s.entries[j..][1..] == s.entries[j + 1..];
            if s.entries[j].key == key {
              return Some(s.entries[j].value);
            }
            j := j + 1;
          }
        }
        i := i + 1;
      }
      return None;
    }
  }

  /** strchr on the string a buffer holds: the index of the first c, or the length when there is none. */
  method Strchr(buf: array<char>, c: char) returns (d: nat)
    requires Terminated(buf[..]) && c != '\0'
    ensures d <= Strlen(buf[..])
    ensures c !in CStr(buf[..])[..d]
    ensures d < Strlen(buf[..]) ==> buf[d] == c
  {
    ghost var s := CStr(buf[..]);
    d := 0;
    while buf[d] != '\0' && buf[d] != c
      invariant d <= Strlen(buf[..])
      invariant c !in s[..d] && '\0' !in buf[..d]
      decreases Strlen(buf[..]) - d
    {
      assert s[..d + 1] == s[..d] + [s[d]];
      assert buf[..d + 1] == buf[..d] + [buf[d]];
      d := d + 1;
    }
    if buf[d] == '\0' {
      StrlenAt(buf[..], d);
    }
  }
}
