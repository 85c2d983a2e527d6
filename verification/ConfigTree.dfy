/** Configuration trees: sections with keys and subsections, printed as section headers and
    key/value lines and rebuilt from these. The grammar between the text and the list of its lines
    is not part of this model. */
module ConfigTree {

  // ------------------------------------------------------------------------ escaping

  function EscapeChar(c: char): string {
    if c == '\\' then ['\\', '\\'] else if c == '"' then ['\\', '"'] else [c]
  }

  function Escape(s: string): string {
    if s == "" then "" else EscapeChar(s[0]) + Escape(s[1..])
  }

  /** What a character stands for after a backslash. */
  function Unescaped(c: char): char {
    match c
    case 'b' => '\U{0008}'
    case 'r' => '\r'
    case 'f' => '\U{000C}'
    case 't' => '\t'
    case 'n' => '\n'
    case _ => c
  }

  function UnescapeFrom(s: string, backslash: bool): string {
    if s == "" then ""
    else if backslash then [Unescaped(s[0])] + UnescapeFrom(s[1..], false)
    else if s[0] == '\\' then UnescapeFrom(s[1..], true)
    else [s[0]] + UnescapeFrom(s[1..], false)
  }

  predicate IsQuoted(s: string) { |s| >= 2 && s[0] == '"' && s[|s| - 1] == '"' }

  function Unescape(s: string): string {
    UnescapeFrom(if IsQuoted(s) then s[1..|s| - 1] else s, false)
  }

  function Quote(s: string): string { ['"'] + s + ['"'] }

  /** One character is read back, whatever follows. */
  lemma {:induction false} UnescapeChar(c: char, rest: string)
    ensures UnescapeFrom(EscapeChar(c) + rest, false) == [c] + UnescapeFrom(rest, false)
  {
    var s := EscapeChar(c) + rest;
    if c == '\\' || c == '"' {
      assert s[1..] == [c] + rest && s[1..][1..] == rest;
      assert UnescapeFrom(s, false) == UnescapeFrom(s[1..], true) == [Unescaped(c)] + UnescapeFrom(rest, false);
    } else {
      assert s[1..] == rest;
    }
  }

  lemma {:induction false} UnescapeEscape(s: string)
    ensures UnescapeFrom(Escape(s), false) == s
  {
    if s == "" {
    } else {
      UnescapeEscape(s[1..]);
      UnescapeChar(s[0], Escape(s[1..]));
    }
  }

  /** Every quote in an escaped text follows a backslash, so it is never taken for a quoted text. */
  lemma {:induction false} EscapeNotQuoted(s: string)
    ensures !IsQuoted(Escape(s))
  {
  }

  /** Unescaping undoes escaping, with or without the surrounding quotes. */
  lemma {:induction false} EscapeRoundTrip(s: string)
    ensures Unescape(Escape(s)) == s && Unescape(Quote(Escape(s))) == s
  {
    UnescapeEscape(s);
    EscapeNotQuoted(s);
    assert Quote(Escape(s))[1..|Quote(Escape(s))| - 1] == Escape(s);
  }

  /** Only backslashes and quotes are escaped, each by a backslash in front of it. */
  lemma {:induction false} EscapeIs(s: string, t: string)
    ensures Escape(s + t) == Escape(s) + Escape(t)
    ensures Escape("\\") == "\\\\" && Escape("\"") == "\\\""
    ensures (forall k :: 0 <= k < |s| ==> s[k] != '\\' && s[k] != '"') ==> Escape(s) == s
  {
    if s == "" {
      assert s + t == t;
    } else {
      EscapeIs(s[1..], t);
      assert (s + t)[0] == s[0] && (s + t)[1..] == s[1..] + t;
      Regroup(EscapeChar(s[0]), Escape(s[1..]), Escape(t));
      assert s == [s[0]] + s[1..];
    }
  }

  /** What each escape yields; a backslash in front of anything else yields just that. */
  lemma EscapesMean(c: char)
    ensures Unescape("\\b") == "\U{0008}" && Unescape("\\r") == "\r" && Unescape("\\f") == "\U{000C}"
    ensures Unescape("\\t") == "\t" && Unescape("\\n") == "\n"
    ensures c !in {'b', 'r', 'f', 't', 'n'} ==> Unescape(['\\', c]) == [c]
  {
    EscapeMeans('b');
    EscapeMeans('r');
    EscapeMeans('f');
    EscapeMeans('t');
    EscapeMeans('n');
    EscapeMeans(c);
  }

  lemma EscapeMeans(c: char)
    ensures Unescape(['\\', c]) == [Unescaped(c)]
  {
    var s := ['\\', c];
    assert s[1..] == [c] && [c][1..] == "";
    assert UnescapeFrom([c], true) == [Unescaped(c)] + UnescapeFrom("", false);
  }

  ghost predicate NoBackslash(s: string) { forall k :: 0 <= k < |s| ==> s[k] != '\\' }

  lemma {:induction false} UnescapePlain(s: string)
    ensures UnescapeFrom(s, false) == s <==> NoBackslash(s)
    ensures forall b :: |UnescapeFrom(s, b)| <= |s|
    ensures !NoBackslash(s) ==> |UnescapeFrom(s, false)| < |s|
  {
    if s == "" {
    } else {
      UnescapePlain(s[1..]);
      UnescapeShorter(s[1..]);
      assert NoBackslash(s) <==> s[0] != '\\' && NoBackslash(s[1..]);
      if s[0] == '\\' { UnescapeShorter(s); }
    }
  }

  lemma {:induction false} UnescapeShorter(s: string)
    ensures |UnescapeFrom(s, false)| <= |s| && |UnescapeFrom(s, true)| <= |s|
  {
    if s == "" {
    } else {
      UnescapeShorter(s[1..]);
    }
  }

  /** The loops over the characters. */
  method EscapeText(source: string) returns (dest: string)
    ensures dest == Escape(source)
  {
    dest := "";
    var i := 0;
    while i < |source|
      invariant i <= |source| && dest + Escape(source[i..]) == Escape(source)
    {
      var c := source[i];
      var e := if c == '\\' then ['\\', '\\'] else if c == '"' then ['\\', '"'] else [c];
      assert source[i..][1..] == source[i + 1..];
      Regroup(dest, e, Escape(source[i + 1..]));
      dest := dest + e;
      i := i + 1;
    }
  }

  lemma Regroup(a: string, b: string, c: string)
    ensures a + (b + c) == a + b + c
  {
  }

  /** What reading one character adds to the result. */
  function Emitted(c: char, backslash: bool): string {
    if backslash then [Unescaped(c)] else if c == '\\' then "" else [c]
  }

  lemma UnescapeOne(s: string, backslash: bool, dest: string)
    requires s != ""
    ensures dest + UnescapeFrom(s, backslash) ==
            dest + Emitted(s[0], backslash) + UnescapeFrom(s[1..], !backslash && s[0] == '\\')
  {
    var rest := UnescapeFrom(s[1..], !backslash && s[0] == '\\');
    assert UnescapeFrom(s, backslash) == Emitted(s[0], backslash) + rest;
    Regroup(dest, Emitted(s[0], backslash), rest);
  }

  method UnEscapeText(source: string) returns (dest: string)
    ensures dest == Unescape(source)
  {
    dest := "";
    var backslash, start, end := false, 0, |source|;
    if |source| >= 2 && source[0] == '"' && source[|source| - 1] == '"' { start, end := start + 1, end - 1; }
    ghost var text := source[start..end];
    assert start == 0 ==> text == source;
    var i := start;
    while i < end
      invariant start <= i <= end && dest + UnescapeFrom(source[i..end], backslash) == UnescapeFrom(text, false)
    {
      var c := source[i];
      assert source[i..end][0] == c && source[i..end][1..] == source[i + 1..end];
      UnescapeOne(source[i..end], backslash, dest);
      if backslash {
        dest := dest + [Unescaped(c)];
        backslash := false;
      } else if c == '\\' {
        assert dest + "" == dest;
        backslash := true;
      } else {
        dest := dest + [c];
      }
      i := i + 1;
    }
    assert source[i..end] == "" && dest + "" == dest;
  }

  // ---------------------------------------------------------------------------- names and paths

  function LowerChar(c: char): char { if 'A' <= c <= 'Z' then c - 'A' + 'a' else c }

  function Fold(caseSensitive: bool, s: string): string {
    if caseSensitive then s else seq(|s|, k requires 0 <= k < |s| => LowerChar(s[k]))
  }

  /** Names are compared without regard to the case of their letters unless that is asked for. */
  lemma FoldIs(s: string)
    ensures Fold(true, s) == s && |Fold(false, s)| == |s|
    ensures forall k :: 0 <= k < |s| ==>
      Fold(false, s)[k] as int == s[k] as int + if 'A' <= s[k] <= 'Z' then 32 else 0
  {
  }

  /** Lexicographic order, the order in which a section keeps its entries. */
  predicate Less(a: string, b: string) {
    b != "" && (a == "" || a[0] < b[0] || (a[0] == b[0] && Less(a[1..], b[1..])))
  }

  lemma {:induction false} LessTotal(a: string, b: string)
    ensures Less(a, b) || a == b || Less(b, a)
  {
    if a == "" || b == "" {
    } else {
      LessTotal(a[1..], b[1..]);
      assert a == [a[0]] + a[1..] && b == [b[0]] + b[1..];
    }
  }

  lemma {:induction false} LessTransitive(a: string, b: string, c: string)
    requires Less(a, b) && Less(b, c)
    ensures Less(a, c)
  {
    if a == "" {
    } else if a[0] == b[0] && b[0] == c[0] {
      LessTransitive(a[1..], b[1..], c[1..]);
    }
  }

  lemma {:induction false} LessIrreflexive(a: string)
    ensures !Less(a, a)
  {
    if a == "" {
    } else {
      LessIrreflexive(a[1..]);
    }
  }

  function Join(path: seq<string>): string
    requires path != []
  {
    if |path| == 1 then path[0] else path[0] + "/" + Join(path[1..])
  }

  function Split(s: string): (r: seq<string>)
    ensures r != []
  {
    if s == "" then [""]
    else
      var r := Split(s[1..]);
      if s[0] == '/' then [""] + r else [[s[0]] + r[0]] + r[1..]
  }

  ghost predicate NoSlash(s: string) { forall k :: 0 <= k < |s| ==> s[k] != '/' }

  lemma {:induction false} SplitName(s: string)
    requires NoSlash(s)
    ensures Split(s) == [s]
  {
    if s == "" {
    } else {
      SplitName(s[1..]);
      assert [s[0]] + s[1..] == s;
    }
  }

  lemma {:induction false} SplitFirst(s: string, t: string)
    requires NoSlash(s)
    ensures Split(s + "/" + t) == [s] + Split(t)
  {
    var all := s + "/" + t;
    if s == "" {
      assert all[0] == '/' && all[1..] == t;
    } else {
      assert all[0] == s[0] && all[1..] == s[1..] + "/" + t;
      SplitFirst(s[1..], t);
      assert [s[0]] + s[1..] == s;
    }
  }

  /** Splitting the full path of a section gives back the names on the way to it. */
  lemma {:induction false} SplitJoin(path: seq<string>)
    requires path != [] && forall i :: 0 <= i < |path| ==> NoSlash(path[i])
    ensures Split(Join(path)) == path
  {
    if |path| == 1 {
      SplitName(path[0]);
    } else {
      SplitJoin(path[1..]);
      SplitFirst(path[0], Join(path[1..]));
    }
  }

  /** The full path of a subsection is that of its parent, a slash and its name. */
  lemma {:induction false} FullPath(path: seq<string>, name: string)
    requires path != []
    ensures Join(path + [name]) == Join(path) + "/" + name
  {
    if |path| > 1 {
      FullPath(path[1..], name);
      assert (path + [name])[1..] == path[1..] + [name];
      assert path[0] + "/" + (Join(path[1..]) + "/" + name) == path[0] + "/" + Join(path[1..]) + "/" + name;
    } else {
      assert (path + [name])[1..] == [name];
    }
  }

  // ---------------------------------------------------------------------------------- the tree

  datatype Key = Key(name: string, value: string)

  /** Keys and subsections in the order of their folded names. */
  datatype Section = Section(name: string, keys: seq<Key>, subs: seq<Section>)

  function InsertKey(keys: seq<Key>, k: Key, cs: bool): seq<Key> {
    if keys == [] then [k]
    else if Less(Fold(cs, keys[0].name), Fold(cs, k.name)) then [keys[0]] + InsertKey(keys[1..], k, cs)
    else [k] + keys
  }

  function RemoveKey(keys: seq<Key>, name: string, cs: bool): seq<Key> {
    if keys == [] then []
    else (if Fold(cs, keys[0].name) == Fold(cs, name) then [] else [keys[0]]) + RemoveKey(keys[1..], name, cs)
  }

  function AddKey(sec: Section, k: Key, cs: bool): Section {
    sec.(keys := InsertKey(RemoveKey(sec.keys, k.name, cs), k, cs))
  }

  /** The position of a subsection, or the number of subsections. */
  function Find(subs: seq<Section>, name: string, cs: bool): (i: nat)
    ensures i <= |subs|
  {
    if subs == [] then 0 else if Fold(cs, subs[0].name) == Fold(cs, name) then 0 else 1 + Find(subs[1..], name, cs)
  }

  function InsertSub(subs: seq<Section>, t: Section, cs: bool): seq<Section> {
    if subs == [] then [t]
    else if Less(Fold(cs, subs[0].name), Fold(cs, t.name)) then [subs[0]] + InsertSub(subs[1..], t, cs)
    else [t] + subs
  }

  function WithSub(subs: seq<Section>, name: string, cs: bool): seq<Section> {
    if Find(subs, name, cs) < |subs| then subs else InsertSub(subs, Section(name, [], []), cs)
  }

  /** Walk down a path, adding the sections that are missing. */
  function Open(sec: Section, path: seq<string>, cs: bool): Section
    decreases |path|
  {
    if path == [] then sec
    else
      var subs := WithSub(sec.subs, path[0], cs);
      var i := Find(subs, path[0], cs);
      if i == |subs| then sec else sec.(subs := subs[i := Open(subs[i], path[1..], cs)])
  }

  /** Add a key to the section at a path. */
  function Store(sec: Section, path: seq<string>, k: Key, cs: bool): Section
    decreases |path|
  {
    if path == [] then AddKey(sec, k, cs)
    else
      var i := Find(sec.subs, path[0], cs);
      if i == |sec.subs| then sec else sec.(subs := sec.subs[i := Store(sec.subs[i], path[1..], k, cs)])
  }

  // ---------------------------------------------------------------------------- printing

  /** A line: the path of a section, or the texts of a key and its value. */
  datatype Entry = Header(path: seq<string>) | Pair(name: string, value: string)

  predicate HasSpaceOrQuote(s: string) { exists k :: 0 <= k < |s| && (s[k] == ' ' || s[k] == '"') }

  function SavedName(name: string): string { if HasSpaceOrQuote(name) then Quote(Escape(name)) else name }

  function SavedValue(value: string, numeric: string -> bool): string {
    if numeric(value) then value else Quote(Escape(value))
  }

  function Lines(keys: seq<Key>, numeric: string -> bool): seq<Entry> {
    if keys == [] then []
    else [Pair(SavedName(keys[0].name), SavedValue(keys[0].value, numeric))] + Lines(keys[1..], numeric)
  }

  function Save(sec: Section, path: seq<string>, numeric: string -> bool): seq<Entry>
    decreases sec, 0
  {
    Lines(sec.keys, numeric) + SaveAll(sec.subs, path, numeric)
  }

  function SaveAll(subs: seq<Section>, path: seq<string>, numeric: string -> bool): seq<Entry>
    decreases subs, 1
  {
    if subs == [] then []
    else
      var below := path + [subs[0].name];
      [Header(below)] + Save(subs[0], below, numeric) + SaveAll(subs[1..], path, numeric)
  }

  // ---------------------------------------------------------------------------- evaluating

  /** The tree and the current section after some lines. */
  function Eval(sec: Section, cur: seq<string>, entries: seq<Entry>, cs: bool): (Section, seq<string>)
    decreases |entries|
  {
    if entries == [] then (sec, cur)
    else match entries[0]
      case Header(path) => Eval(Open(sec, path, cs), path, entries[1..], cs)
      case Pair(name, value) => Eval(Store(sec, cur, Key(Unescape(name), Unescape(value)), cs), cur, entries[1..], cs)
  }

  // ---------------------------------------------------------------------- names and values

  /** A name that is printed as it is must not contain a backslash. */
  ghost predicate NameOk(name: string) { HasSpaceOrQuote(name) || NoBackslash(name) }

  /** A key name survives printing and reading if and only if it is quoted or has no backslash. */
  lemma NameRoundTrip(name: string)
    ensures Unescape(SavedName(name)) == name <==> NameOk(name)
  {
    EscapeRoundTrip(name);
    UnescapePlain(name);
    if !HasSpaceOrQuote(name) && |name| > 0 { assert name[0] != '"'; }
  }

  /** A name is printed with quotes around it, or it has no space and no quote in it. */
  lemma SavedNameIsOneWord(name: string)
    ensures
      || IsQuoted(SavedName(name))
      || (SavedName(name) == name && forall k :: 0 <= k < |name| ==> name[k] != ' ' && name[k] != '"')
  {
  }

  /** Texts that read as numbers contain no backslash and are not quoted. */
  ghost predicate NumbersArePlain(numeric: string -> bool) {
    forall s :: numeric(s) ==> NoBackslash(s) && !IsQuoted(s)
  }

  lemma ValueRoundTrip(value: string, numeric: string -> bool)
    requires NumbersArePlain(numeric)
    ensures Unescape(SavedValue(value, numeric)) == value
    ensures numeric(value) <==> !IsQuoted(SavedValue(value, numeric))
  {
    EscapeRoundTrip(value);
    UnescapePlain(value);
  }

  // --------------------------------------------------------------------- well-formed trees

  ghost predicate KeysSorted(keys: seq<Key>, cs: bool) {
    forall i, j :: 0 <= i < j < |keys| ==> Less(Fold(cs, keys[i].name), Fold(cs, keys[j].name))
  }

  ghost predicate SubsSorted(subs: seq<Section>, cs: bool) {
    forall i, j :: 0 <= i < j < |subs| ==> Less(Fold(cs, subs[i].name), Fold(cs, subs[j].name))
  }

  /** Entries in order, each name once, and no slash in the name of a subsection. */
  ghost predicate Tidy(sec: Section, cs: bool) {
    && KeysSorted(sec.keys, cs) && SubsSorted(sec.subs, cs)
    && (forall i :: 0 <= i < |sec.subs| ==> NoSlash(sec.subs[i].name) && Tidy(sec.subs[i], cs))
  }

  ghost predicate NamesOk(sec: Section) {
    && (forall i :: 0 <= i < |sec.keys| ==> NameOk(sec.keys[i].name))
    && (forall i :: 0 <= i < |sec.subs| ==> NamesOk(sec.subs[i]))
  }

  ghost predicate WellFormed(sec: Section, cs: bool) { Tidy(sec, cs) && NamesOk(sec) }

  // ------------------------------------------------------------------- keys and subsections

  function Get(keys: seq<Key>, name: string, cs: bool): seq<string> {
    if keys == [] then []
    else (if Fold(cs, keys[0].name) == Fold(cs, name) then [keys[0].value] else []) + Get(keys[1..], name, cs)
  }

  lemma {:induction false} GetInsert(keys: seq<Key>, k: Key, name: string, cs: bool)
    requires Fold(cs, name) == Fold(cs, k.name) ==> Get(keys, name, cs) == []
    ensures Get(InsertKey(keys, k, cs), name, cs) ==
            if Fold(cs, name) == Fold(cs, k.name) then [k.value] else Get(keys, name, cs)
  {
    var all := InsertKey(keys, k, cs);
    if keys == [] {
      assert all[1..] == [];
    } else if Less(Fold(cs, keys[0].name), Fold(cs, k.name)) {
      GetInsert(keys[1..], k, name, cs);
      assert all[1..] == InsertKey(keys[1..], k, cs);
    } else {
      assert all[1..] == keys;
    }
  }

  lemma {:induction false} GetRemove(keys: seq<Key>, gone: string, name: string, cs: bool)
    ensures Get(RemoveKey(keys, gone, cs), name, cs) ==
            if Fold(cs, name) == Fold(cs, gone) then [] else Get(keys, name, cs)
  {
    if keys == [] {
    } else {
      GetRemove(keys[1..], gone, name, cs);
      var rest := RemoveKey(keys[1..], gone, cs);
      assert [] + rest == rest && ([keys[0]] + rest)[1..] == rest;
    }
  }

  /** After a key was added, exactly one key goes by its name, with the new value; what goes by any
      other name is as before. */
  lemma {:induction false} AddedKey(sec: Section, k: Key, name: string, cs: bool)
    ensures Get(AddKey(sec, k, cs).keys, name, cs) ==
            if Fold(cs, name) == Fold(cs, k.name) then [k.value] else Get(sec.keys, name, cs)
  {
    GetRemove(sec.keys, k.name, name, cs);
    GetInsert(RemoveKey(sec.keys, k.name, cs), k, name, cs);
  }

  lemma {:induction false} RemoveMembers(keys: seq<Key>, name: string, cs: bool)
    ensures forall x :: x in RemoveKey(keys, name, cs) <==> x in keys && Fold(cs, x.name) != Fold(cs, name)
  {
    if keys == [] {
    } else {
      RemoveMembers(keys[1..], name, cs);
      assert keys == [keys[0]] + keys[1..];
    }
  }

  lemma {:induction false} RemoveSorted(keys: seq<Key>, name: string, cs: bool)
    requires KeysSorted(keys, cs)
    ensures KeysSorted(RemoveKey(keys, name, cs), cs)
  {
    if keys == [] {
    } else {
      RemoveSorted(keys[1..], name, cs);
      var rest := RemoveKey(keys[1..], name, cs);
      RemoveMembers(keys[1..], name, cs);
      forall j | 0 <= j < |rest| ensures Less(Fold(cs, keys[0].name), Fold(cs, rest[j].name)) {
        assert rest[j] in keys[1..];
      }
    }
  }

  lemma {:induction false} InsertMembers(keys: seq<Key>, k: Key, cs: bool)
    ensures forall x :: x in InsertKey(keys, k, cs) <==> x == k || x in keys
  {
    if keys == [] {
    } else {
      InsertMembers(keys[1..], k, cs);
      assert keys == [keys[0]] + keys[1..];
    }
  }

  lemma {:induction false} InsertSorted(keys: seq<Key>, k: Key, cs: bool)
    requires KeysSorted(keys, cs) && forall i :: 0 <= i < |keys| ==> Fold(cs, keys[i].name) != Fold(cs, k.name)
    ensures KeysSorted(InsertKey(keys, k, cs), cs)
  {
    if keys == [] {
    } else if Less(Fold(cs, keys[0].name), Fold(cs, k.name)) {
      InsertSorted(keys[1..], k, cs);
      var rest := InsertKey(keys[1..], k, cs);
      InsertMembers(keys[1..], k, cs);
      forall j | 0 <= j < |rest| ensures Less(Fold(cs, keys[0].name), Fold(cs, rest[j].name)) {
        assert rest[j] == k || rest[j] in keys[1..];
      }
    } else {
      LessTotal(Fold(cs, keys[0].name), Fold(cs, k.name));
      forall j | 0 < j < |keys| ensures Less(Fold(cs, k.name), Fold(cs, keys[j].name)) {
        LessTransitive(Fold(cs, k.name), Fold(cs, keys[0].name), Fold(cs, keys[j].name));
      }
    }
  }

  lemma AddKeySorted(sec: Section, k: Key, cs: bool)
    requires KeysSorted(sec.keys, cs)
    ensures KeysSorted(AddKey(sec, k, cs).keys, cs)
  {
    RemoveSorted(sec.keys, k.name, cs);
    RemoveMembers(sec.keys, k.name, cs);
    var rest := RemoveKey(sec.keys, k.name, cs);
    forall i | 0 <= i < |rest| ensures Fold(cs, rest[i].name) != Fold(cs, k.name) { assert rest[i] in rest; }
    InsertSorted(rest, k, cs);
  }

  lemma {:induction false} SubMembers(subs: seq<Section>, t: Section, cs: bool)
    ensures forall x :: x in InsertSub(subs, t, cs) <==> x == t || x in subs
  {
    if subs == [] {
    } else {
      SubMembers(subs[1..], t, cs);
      assert subs == [subs[0]] + subs[1..];
    }
  }

  lemma {:induction false} SubSorted(subs: seq<Section>, t: Section, cs: bool)
    requires SubsSorted(subs, cs) && forall i :: 0 <= i < |subs| ==> Fold(cs, subs[i].name) != Fold(cs, t.name)
    ensures SubsSorted(InsertSub(subs, t, cs), cs)
  {
    if subs == [] {
    } else if Less(Fold(cs, subs[0].name), Fold(cs, t.name)) {
      SubSorted(subs[1..], t, cs);
      var rest := InsertSub(subs[1..], t, cs);
      SubMembers(subs[1..], t, cs);
      forall j | 0 <= j < |rest| ensures Less(Fold(cs, subs[0].name), Fold(cs, rest[j].name)) {
        assert rest[j] == t || rest[j] in subs[1..];
      }
    } else {
      LessTotal(Fold(cs, subs[0].name), Fold(cs, t.name));
      forall j | 0 < j < |subs| ensures Less(Fold(cs, t.name), Fold(cs, subs[j].name)) {
        LessTransitive(Fold(cs, t.name), Fold(cs, subs[0].name), Fold(cs, subs[j].name));
      }
    }
  }

  lemma {:induction false} FindIs(subs: seq<Section>, name: string, cs: bool)
    ensures var i := Find(subs, name, cs);
      && (i < |subs| ==> Fold(cs, subs[i].name) == Fold(cs, name))
      && forall j :: 0 <= j < i ==> Fold(cs, subs[j].name) != Fold(cs, name)
  {
    if subs == [] {
    } else {
      FindIs(subs[1..], name, cs);
    }
  }

  /** Keys and subsections in order, each name once, all the way down. */
  ghost predicate Ordered(sec: Section, cs: bool) {
    && KeysSorted(sec.keys, cs) && SubsSorted(sec.subs, cs)
    && forall i :: 0 <= i < |sec.subs| ==> Ordered(sec.subs[i], cs)
  }

  ghost predicate AllOrdered(subs: seq<Section>, cs: bool) {
    SubsSorted(subs, cs) && forall i :: 0 <= i < |subs| ==> Ordered(subs[i], cs)
  }

  lemma WithSubOrdered(subs: seq<Section>, name: string, cs: bool)
    requires AllOrdered(subs, cs)
    ensures AllOrdered(WithSub(subs, name, cs), cs)
  {
    FindIs(subs, name, cs);
    if Find(subs, name, cs) == |subs| {
      var t, all := Section(name, [], []), WithSub(subs, name, cs);
      SubSorted(subs, t, cs);
      SubMembers(subs, t, cs);
      forall i | 0 <= i < |all| ensures Ordered(all[i], cs) { assert all[i] in all; }
    }
  }

  /** A subsection may change as long as it keeps its name. */
  lemma {:induction false} UpdateOrdered(subs: seq<Section>, i: nat, t: Section, cs: bool)
    requires AllOrdered(subs, cs) && i < |subs| && Ordered(t, cs) && t.name == subs[i].name
    ensures AllOrdered(subs[i := t], cs)
  {
  }

  lemma {:induction false} OpenOrdered(sec: Section, path: seq<string>, cs: bool)
    requires Ordered(sec, cs)
    ensures Ordered(Open(sec, path, cs), cs) && Open(sec, path, cs).name == sec.name
    decreases |path|
  {
    if path == [] {
    } else {
      WithSubOrdered(sec.subs, path[0], cs);
      var subs := WithSub(sec.subs, path[0], cs);
      var i := Find(subs, path[0], cs);
      if i < |subs| {
        OpenOrdered(subs[i], path[1..], cs);
        UpdateOrdered(subs, i, Open(subs[i], path[1..], cs), cs);
      }
    }
  }

  lemma {:induction false} StoreOrdered(sec: Section, path: seq<string>, k: Key, cs: bool)
    requires Ordered(sec, cs)
    ensures Ordered(Store(sec, path, k, cs), cs) && Store(sec, path, k, cs).name == sec.name
    decreases |path|
  {
    if path == [] {
      AddKeySorted(sec, k, cs);
    } else {
      var i := Find(sec.subs, path[0], cs);
      if i < |sec.subs| {
        StoreOrdered(sec.subs[i], path[1..], k, cs);
        UpdateOrdered(sec.subs, i, Store(sec.subs[i], path[1..], k, cs), cs);
      }
    }
  }

  /** Whatever lines are read, and in whatever order, the tree stays in order with each name once. */
  lemma {:induction false} EvalOrdered(sec: Section, cur: seq<string>, entries: seq<Entry>, cs: bool)
    requires Ordered(sec, cs)
    ensures Ordered(Eval(sec, cur, entries, cs).0, cs)
    decreases |entries|
  {
    if entries == [] {
    } else {
      match entries[0]
      case Header(path) =>
        OpenOrdered(sec, path, cs);
        EvalOrdered(Open(sec, path, cs), path, entries[1..], cs);
      case Pair(name, value) =>
        var k := Key(Unescape(name), Unescape(value));
        StoreOrdered(sec, cur, k, cs);
        EvalOrdered(Store(sec, cur, k, cs), cur, entries[1..], cs);
    }
  }

  // -------------------------------------------------------------- adding in increasing order

  lemma {:induction false} KeyLast(keys: seq<Key>, k: Key, cs: bool)
    requires forall i :: 0 <= i < |keys| ==> Less(Fold(cs, keys[i].name), Fold(cs, k.name))
    ensures RemoveKey(keys, k.name, cs) == keys && InsertKey(keys, k, cs) == keys + [k]
  {
    if keys == [] {
    } else {
      LessIrreflexive(Fold(cs, k.name));
      assert Fold(cs, keys[0].name) != Fold(cs, k.name);
      KeyLast(keys[1..], k, cs);
      assert [keys[0]] + keys[1..] == keys;
    }
  }

  lemma {:induction false} SubLast(subs: seq<Section>, t: Section, cs: bool)
    requires forall i :: 0 <= i < |subs| ==> Less(Fold(cs, subs[i].name), Fold(cs, t.name))
    ensures Find(subs, t.name, cs) == |subs| && Find(subs + [t], t.name, cs) == |subs|
    ensures InsertSub(subs, t, cs) == subs + [t]
  {
    if subs == [] {
    } else {
      LessIrreflexive(Fold(cs, t.name));
      assert Fold(cs, subs[0].name) != Fold(cs, t.name);
      SubLast(subs[1..], t, cs);
      assert (subs + [t])[1..] == subs[1..] + [t] && [subs[0]] + subs[1..] == subs;
    }
  }

  lemma {:induction false} EvalConcat(sec: Section, cur: seq<string>, a: seq<Entry>, b: seq<Entry>, cs: bool)
    ensures var (s, c) := Eval(sec, cur, a, cs); Eval(sec, cur, a + b, cs) == Eval(s, c, b, cs)
    decreases |a|
  {
    if a == [] {
      assert a + b == b;
    } else {
      assert (a + b)[1..] == a[1..] + b;
      match a[0]
      case Header(path) => EvalConcat(Open(sec, path, cs), path, a[1..], b, cs);
      case Pair(name, value) =>
        EvalConcat(Store(sec, cur, Key(Unescape(name), Unescape(value)), cs), cur, a[1..], b, cs);
    }
  }

  lemma {:induction false} OpenKeepsName(sec: Section, path: seq<string>, cs: bool)
    ensures Open(sec, path, cs).name == sec.name
  {
  }

  lemma {:induction false} StoreKeepsName(sec: Section, path: seq<string>, k: Key, cs: bool)
    ensures Store(sec, path, k, cs).name == sec.name
  {
  }

  /** Lines that stay below one subsection. */
  function Prefix(name: string, entries: seq<Entry>): seq<Entry> {
    if entries == [] then [] else [Below(name, entries[0])] + Prefix(name, entries[1..])
  }

  function Below(name: string, e: Entry): Entry {
    match e
    case Header(path) => Header([name] + path)
    case Pair(_, _) => e
  }

  lemma {:induction false} PrefixConcat(name: string, a: seq<Entry>, b: seq<Entry>)
    ensures Prefix(name, a + b) == Prefix(name, a) + Prefix(name, b)
    decreases |a|
  {
    if a == [] {
      assert a + b == b;
    } else {
      assert (a + b)[1..] == a[1..] + b && (a + b)[0] == a[0];
      PrefixConcat(name, a[1..], b);
      assert [Below(name, a[0])] + (Prefix(name, a[1..]) + Prefix(name, b)) ==
             [Below(name, a[0])] + Prefix(name, a[1..]) + Prefix(name, b);
    }
  }

  lemma {:induction false} PrefixLines(name: string, keys: seq<Key>, numeric: string -> bool)
    ensures Prefix(name, Lines(keys, numeric)) == Lines(keys, numeric)
  {
    if keys == [] {
    } else {
      PrefixLines(name, keys[1..], numeric);
      assert Lines(keys, numeric)[1..] == Lines(keys[1..], numeric);
    }
  }

  /** Printing below a subsection is printing the subsection with its name in front of the paths. */
  lemma {:induction false} SavePrefix(sec: Section, name: string, path: seq<string>, numeric: string -> bool)
    ensures Save(sec, [name] + path, numeric) == Prefix(name, Save(sec, path, numeric))
    decreases sec, 0
  {
    SaveAllPrefix(sec.subs, name, path, numeric);
    PrefixLines(name, sec.keys, numeric);
    PrefixConcat(name, Lines(sec.keys, numeric), SaveAll(sec.subs, path, numeric));
  }

  lemma {:induction false} SaveAllPrefix(subs: seq<Section>, name: string, path: seq<string>, numeric: string -> bool)
    ensures SaveAll(subs, [name] + path, numeric) == Prefix(name, SaveAll(subs, path, numeric))
    decreases subs, 1
  {
    if subs == [] {
    } else {
      var p := path + [subs[0].name];
      assert [name] + path + [subs[0].name] == [name] + p;
      SavePrefix(subs[0], name, p, numeric);
      SaveAllPrefix(subs[1..], name, path, numeric);
      PrefixConcat(name, [Header(p)] + Save(subs[0], p, numeric), SaveAll(subs[1..], path, numeric));
      PrefixConcat(name, [Header(p)], Save(subs[0], p, numeric));
      assert Prefix(name, [Header(p)]) == [Header([name] + p)] by { assert [Header(p)][1..] == []; }
    }
  }

  // ---------------------------------------------------------------------------- locality

  lemma {:induction false} FindSame(subs: seq<Section>, t: Section, t': Section, cs: bool)
    requires t.name == t'.name
    ensures Find(subs + [t], t.name, cs) == Find(subs + [t'], t'.name, cs)
  {
    if subs != [] {
      FindSame(subs[1..], t, t', cs);
      assert (subs + [t])[1..] == subs[1..] + [t] && (subs + [t'])[1..] == subs[1..] + [t'];
    } else {
      assert subs + [t] == [t] && subs + [t'] == [t'];
    }
  }

  /** Lines below the last subsection change this subsection only, as if it were the root. */
  lemma {:induction false} EvalBelow(sec: Section, before: seq<Section>, t: Section, cur: seq<string>,
                                     entries: seq<Entry>, cs: bool)
    requires sec.subs == before + [t] && Find(sec.subs, t.name, cs) == |before|
    ensures var (t', cur') := Eval(t, cur, entries, cs);
      && t'.name == t.name
      && Eval(sec, [t.name] + cur, Prefix(t.name, entries), cs) == (sec.(subs := before + [t']), [t.name] + cur')
    decreases |entries|
  {
    if entries == [] {
    } else {
      var es := Prefix(t.name, entries);
      assert es[1..] == Prefix(t.name, entries[1..]);
      match entries[0]
      case Header(path) =>
        OpenBelow(sec, before, t, path, cs);
        var t1 := Open(t, path, cs);
        FindSame(before, t, t1, cs);
        EvalBelow(sec.(subs := before + [t1]), before, t1, path, entries[1..], cs);
      case Pair(name, value) =>
        var k := Key(Unescape(name), Unescape(value));
        StoreBelow(sec, before, t, cur, k, cs);
        var t1 := Store(t, cur, k, cs);
        FindSame(before, t, t1, cs);
        EvalBelow(sec.(subs := before + [t1]), before, t1, cur, entries[1..], cs);
    }
  }

  lemma {:induction false} OpenBelow(sec: Section, before: seq<Section>, t: Section, path: seq<string>, cs: bool)
    requires sec.subs == before + [t] && Find(sec.subs, t.name, cs) == |before|
    ensures Open(sec, [t.name] + path, cs) == sec.(subs := before + [Open(t, path, cs)])
    ensures Open(t, path, cs).name == t.name
  {
    OpenKeepsName(t, path, cs);
    assert ([t.name] + path)[1..] == path;
    assert sec.subs[|before| := Open(t, path, cs)] == before + [Open(t, path, cs)];
  }

  lemma {:induction false} StoreBelow(sec: Section, before: seq<Section>, t: Section, cur: seq<string>, k: Key,
                                      cs: bool)
    requires sec.subs == before + [t] && Find(sec.subs, t.name, cs) == |before|
    ensures Store(sec, [t.name] + cur, k, cs) == sec.(subs := before + [Store(t, cur, k, cs)])
    ensures Store(t, cur, k, cs).name == t.name
  {
    StoreKeepsName(t, cur, k, cs);
    assert ([t.name] + cur)[1..] == cur;
    assert sec.subs[|before| := Store(t, cur, k, cs)] == before + [Store(t, cur, k, cs)];
  }

  // ------------------------------------------------------------------------- the round trip

  lemma {:induction false} EvalKeys(sec: Section, todo: seq<Key>, numeric: string -> bool, cs: bool)
    requires NumbersArePlain(numeric) && KeysSorted(sec.keys + todo, cs)
    requires forall i :: 0 <= i < |todo| ==> NameOk(todo[i].name)
    ensures Eval(sec, [], Lines(todo, numeric), cs) == (sec.(keys := sec.keys + todo), [])
    decreases |todo|
  {
    if todo == [] {
      assert sec.keys + todo == sec.keys;
    } else {
      var k, all := todo[0], sec.keys + todo;
      forall i | 0 <= i < |sec.keys| ensures Less(Fold(cs, sec.keys[i].name), Fold(cs, k.name)) {
        assert all[i] == sec.keys[i] && all[|sec.keys|] == k;
      }
      KeyLast(sec.keys, k, cs);
      NameRoundTrip(k.name);
      ValueRoundTrip(k.value, numeric);
      assert sec.keys + [k] + todo[1..] == all;
      EvalKeys(sec.(keys := sec.keys + [k]), todo[1..], numeric, cs);
      assert Lines(todo, numeric)[1..] == Lines(todo[1..], numeric);
    }
  }

  /** Reading the lines of a section into a new section of its name rebuilds it. */
  lemma {:induction false} EvalSave(t: Section, numeric: string -> bool, cs: bool)
    requires NumbersArePlain(numeric) && WellFormed(t, cs)
    ensures Eval(Section(t.name, [], []), [], Save(t, [], numeric), cs).0 == t
    decreases t, 0
  {
    var start := Section(t.name, [], []);
    assert [] + t.keys == t.keys && [] + t.subs == t.subs;
    EvalKeys(start, t.keys, numeric, cs);
    EvalConcat(start, [], Lines(t.keys, numeric), SaveAll(t.subs, [], numeric), cs);
    EvalSubs(Section(t.name, t.keys, []), [], t.subs, numeric, cs);
  }

  lemma {:induction false} EvalSubs(sec: Section, cur: seq<string>, todo: seq<Section>, numeric: string -> bool,
                                    cs: bool)
    requires NumbersArePlain(numeric) && SubsSorted(sec.subs + todo, cs)
    requires forall i :: 0 <= i < |todo| ==> WellFormed(todo[i], cs)
    ensures Eval(sec, cur, SaveAll(todo, [], numeric), cs).0 == sec.(subs := sec.subs + todo)
    decreases todo, 1
  {
    if todo == [] {
      assert sec.subs + todo == sec.subs;
    } else {
      var sec1, cur1 := EvalFirstSub(sec, cur, todo, numeric, cs);
      EvalSubs(sec1, cur1, todo[1..], numeric, cs);
    }
  }

  /** The first subsection is complete; what remains is to be read into the tree with it. */
  lemma {:induction false} EvalFirstSub(sec: Section, cur: seq<string>, todo: seq<Section>, numeric: string -> bool,
                                        cs: bool)
    returns (sec1: Section, cur1: seq<string>)
    requires NumbersArePlain(numeric) && todo != [] && SubsSorted(sec.subs + todo, cs) && WellFormed(todo[0], cs)
    ensures Eval(sec, cur, SaveAll(todo, [], numeric), cs) == Eval(sec1, cur1, SaveAll(todo[1..], [], numeric), cs)
    ensures SubsSorted(sec1.subs + todo[1..], cs)
    ensures sec1.(subs := sec1.subs + todo[1..]) == sec.(subs := sec.subs + todo)
    decreases todo, 0
  {
    var t := todo[0];
    var first := [Header([t.name])] + Save(t, [t.name], numeric);
    NextIsLast(sec.subs, todo, cs);
    EvalOneSub(sec, cur, t, numeric, cs);
    assert [] + [t.name] == [t.name];
    EvalConcat(sec, cur, first, SaveAll(todo[1..], [], numeric), cs);
    sec1, cur1 := sec.(subs := sec.subs + [t]), Eval(sec, cur, first, cs).1;
    Shift(sec.subs, todo);
  }

  lemma Shift<T>(s: seq<T>, todo: seq<T>)
    requires todo != []
    ensures s + [todo[0]] + todo[1..] == s + todo
  {
  }

  lemma {:induction false} NextIsLast(subs: seq<Section>, todo: seq<Section>, cs: bool)
    requires todo != [] && SubsSorted(subs + todo, cs)
    ensures var empty := Section(todo[0].name, [], []);
      && Find(subs, empty.name, cs) == |subs| && Find(subs + [empty], empty.name, cs) == |subs|
      && InsertSub(subs, empty, cs) == subs + [empty]
  {
    var all := subs + todo;
    forall i | 0 <= i < |subs| ensures Less(Fold(cs, subs[i].name), Fold(cs, todo[0].name)) {
      assert all[i] == subs[i] && all[|subs|] == todo[0];
    }
    SubLast(subs, Section(todo[0].name, [], []), cs);
  }

  /** The header creates the subsection at the end, its lines then fill it. */
  lemma {:induction false} EvalOneSub(sec: Section, cur: seq<string>, t: Section, numeric: string -> bool, cs: bool)
    requires NumbersArePlain(numeric) && WellFormed(t, cs)
    requires Find(sec.subs, t.name, cs) == |sec.subs|
    requires InsertSub(sec.subs, Section(t.name, [], []), cs) == sec.subs + [Section(t.name, [], [])]
    requires Find(sec.subs + [Section(t.name, [], [])], t.name, cs) == |sec.subs|
    ensures Eval(sec, cur, [Header([t.name])] + Save(t, [t.name], numeric), cs).0 == sec.(subs := sec.subs + [t])
    decreases t, 1
  {
    var empty := Section(t.name, [], []);
    var lines := Save(t, [], numeric);
    SavePrefix(t, t.name, [], numeric);
    assert [t.name] + [] == [t.name];
    var sec1 := sec.(subs := sec.subs + [empty]);
    var entries := [Header([t.name])] + Prefix(t.name, lines);
    assert entries[1..] == Prefix(t.name, lines);
    assert Open(sec, [t.name], cs) == sec1 by {
      assert [t.name][1..] == [] && sec1.subs[|sec.subs| := empty] == sec1.subs;
    }
    EvalBelow(sec1, sec.subs, empty, [], lines, cs);
    EvalSave(t, numeric, cs);
  }

  // ------------------------------------------------------- names that cannot be read back

  /** The characters in the key names of a tree. */
  function Lengths(sec: Section): nat {
    KeyLengths(sec.keys) + SubLengths(sec.subs)
  }

  function KeyLengths(keys: seq<Key>): nat {
    if keys == [] then 0 else |keys[0].name| + KeyLengths(keys[1..])
  }

  function SubLengths(subs: seq<Section>): nat {
    if subs == [] then 0 else Lengths(subs[0]) + SubLengths(subs[1..])
  }

  lemma {:induction false} InsertKeyLengths(keys: seq<Key>, k: Key, cs: bool)
    ensures KeyLengths(InsertKey(keys, k, cs)) == KeyLengths(keys) + |k.name|
  {
    if keys == [] {
    } else {
      InsertKeyLengths(keys[1..], k, cs);
    }
  }

  lemma {:induction false} RemoveKeyLengths(keys: seq<Key>, name: string, cs: bool)
    ensures KeyLengths(RemoveKey(keys, name, cs)) <= KeyLengths(keys)
  {
    if keys == [] {
    } else {
      RemoveKeyLengths(keys[1..], name, cs);
      var rest := RemoveKey(keys[1..], name, cs);
      assert [] + rest == rest && ([keys[0]] + rest)[1..] == rest;
    }
  }

  lemma {:induction false} InsertSubLengths(subs: seq<Section>, t: Section, cs: bool)
    ensures SubLengths(InsertSub(subs, t, cs)) == SubLengths(subs) + Lengths(t)
  {
    if subs == [] {
    } else {
      InsertSubLengths(subs[1..], t, cs);
    }
  }

  lemma {:induction false} UpdateSubLengths(subs: seq<Section>, i: nat, t: Section)
    requires i < |subs|
    ensures SubLengths(subs[i := t]) + Lengths(subs[i]) == SubLengths(subs) + Lengths(t)
  {
    if i == 0 {
      assert subs[i := t][1..] == subs[1..];
    } else {
      UpdateSubLengths(subs[1..], i - 1, t);
      assert subs[i := t][1..] == subs[1..][i - 1 := t];
    }
  }

  lemma {:induction false} OpenLengths(sec: Section, path: seq<string>, cs: bool)
    ensures Lengths(Open(sec, path, cs)) == Lengths(sec)
    decreases |path|
  {
    if path == [] {
    } else {
      var subs := WithSub(sec.subs, path[0], cs);
      InsertSubLengths(sec.subs, Section(path[0], [], []), cs);
      var i := Find(subs, path[0], cs);
      if i < |subs| {
        OpenLengths(subs[i], path[1..], cs);
        UpdateSubLengths(subs, i, Open(subs[i], path[1..], cs));
      }
    }
  }

  lemma {:induction false} StoreLengths(sec: Section, path: seq<string>, k: Key, cs: bool)
    ensures Lengths(Store(sec, path, k, cs)) <= Lengths(sec) + |k.name|
    decreases |path|
  {
    if path == [] {
      RemoveKeyLengths(sec.keys, k.name, cs);
      InsertKeyLengths(RemoveKey(sec.keys, k.name, cs), k, cs);
    } else {
      var i := Find(sec.subs, path[0], cs);
      if i < |sec.subs| {
        StoreLengths(sec.subs[i], path[1..], k, cs);
        UpdateSubLengths(sec.subs, i, Store(sec.subs[i], path[1..], k, cs));
      }
    }
  }

  /** The characters in the key names of some lines, as they are read. */
  function ReadLengths(entries: seq<Entry>): nat {
    if entries == [] then 0
    else (if entries[0].Pair? then |Unescape(entries[0].name)| else 0) + ReadLengths(entries[1..])
  }

  /** A tree holds no more than was read. */
  lemma {:induction false} EvalLengths(sec: Section, cur: seq<string>, entries: seq<Entry>, cs: bool)
    ensures Lengths(Eval(sec, cur, entries, cs).0) <= Lengths(sec) + ReadLengths(entries)
    decreases |entries|
  {
    if entries == [] {
    } else {
      match entries[0]
      case Header(path) =>
        OpenLengths(sec, path, cs);
        EvalLengths(Open(sec, path, cs), path, entries[1..], cs);
      case Pair(name, value) =>
        var k := Key(Unescape(name), Unescape(value));
        StoreLengths(sec, cur, k, cs);
        EvalLengths(Store(sec, cur, k, cs), cur, entries[1..], cs);
    }
  }

  lemma {:induction false} ReadConcat(a: seq<Entry>, b: seq<Entry>)
    ensures ReadLengths(a + b) == ReadLengths(a) + ReadLengths(b)
  {
    if a == [] {
      assert a + b == b;
    } else {
      ReadConcat(a[1..], b);
      assert (a + b)[1..] == a[1..] + b;
    }
  }

  /** A name that cannot be read back loses at least its backslash. */
  lemma ReadName(name: string)
    ensures |Unescape(SavedName(name))| <= |name|
    ensures !NameOk(name) ==> |Unescape(SavedName(name))| < |name|
  {
    NameRoundTrip(name);
    UnescapePlain(name);
    if !HasSpaceOrQuote(name) && |name| > 0 { assert name[0] != '"'; }
  }

  lemma {:induction false} LinesLengths(keys: seq<Key>, numeric: string -> bool)
    ensures ReadLengths(Lines(keys, numeric)) <= KeyLengths(keys)
    ensures (exists i :: 0 <= i < |keys| && !NameOk(keys[i].name)) ==>
      ReadLengths(Lines(keys, numeric)) < KeyLengths(keys)
  {
    if keys == [] {
    } else {
      ReadName(keys[0].name);
      LinesLengths(keys[1..], numeric);
      assert Lines(keys, numeric)[1..] == Lines(keys[1..], numeric);
      if i :| 1 <= i < |keys| && !NameOk(keys[i].name) { assert keys[1..][i - 1] == keys[i]; }
    }
  }

  /** What is read of a saved tree is shorter than its names if one of them cannot be read back. */
  lemma {:induction false} SaveLengths(sec: Section, path: seq<string>, numeric: string -> bool)
    ensures ReadLengths(Save(sec, path, numeric)) <= Lengths(sec)
    ensures !NamesOk(sec) ==> ReadLengths(Save(sec, path, numeric)) < Lengths(sec)
    decreases sec, 0
  {
    LinesLengths(sec.keys, numeric);
    SaveAllLengths(sec.subs, path, numeric);
    ReadConcat(Lines(sec.keys, numeric), SaveAll(sec.subs, path, numeric));
  }

  lemma {:induction false} SaveAllLengths(subs: seq<Section>, path: seq<string>, numeric: string -> bool)
    ensures ReadLengths(SaveAll(subs, path, numeric)) <= SubLengths(subs)
    ensures (exists i :: 0 <= i < |subs| && !NamesOk(subs[i])) ==>
      ReadLengths(SaveAll(subs, path, numeric)) < SubLengths(subs)
    decreases subs, 1
  {
    if subs == [] {
    } else {
      var p := path + [subs[0].name];
      SaveLengths(subs[0], p, numeric);
      SaveAllLengths(subs[1..], path, numeric);
      ReadConcat([Header(p)] + Save(subs[0], p, numeric), SaveAll(subs[1..], path, numeric));
      ReadConcat([Header(p)], Save(subs[0], p, numeric));
      if i :| 1 <= i < |subs| && !NamesOk(subs[i]) { assert subs[1..][i - 1] == subs[i]; }
    }
  }

  // ------------------------------------------------------------------------- header texts

  /** The lines as they are written and as the parser hands them over. */
  datatype Text = HeaderText(text: string) | PairText(name: string, value: string)

  function Print(e: Entry): Text
    requires e.Header? ==> e.path != []
  {
    match e
    case Header(path) => HeaderText("[" + Join(path) + "]")
    case Pair(name, value) => PairText(name, value)
  }

  /** The brackets are stripped and the path is cut at the slashes. */
  function Read(t: Text): Entry {
    match t
    case HeaderText(text) => Header(Split(if |text| >= 2 then text[1..|text| - 1] else ""))
    case PairText(name, value) => Pair(name, value)
  }

  ghost predicate PathOk(e: Entry) {
    e.Header? ==> e.path != [] && forall i :: 0 <= i < |e.path| ==> NoSlash(e.path[i])
  }

  lemma ReadPrint(e: Entry)
    requires PathOk(e)
    ensures Read(Print(e)) == e
  {
    if e.Header? {
      SplitJoin(e.path);
      var text := "[" + Join(e.path) + "]";
      assert text[1..|text| - 1] == Join(e.path);
    }
  }

  ghost predicate PathsOk(entries: seq<Entry>) { forall k :: 0 <= k < |entries| ==> PathOk(entries[k]) }

  lemma {:induction false} LinesOk(keys: seq<Key>, numeric: string -> bool)
    ensures PathsOk(Lines(keys, numeric))
  {
    if keys == [] {
    } else {
      LinesOk(keys[1..], numeric);
    }
  }

  lemma {:induction false} SaveOk(sec: Section, path: seq<string>, numeric: string -> bool, cs: bool)
    requires Tidy(sec, cs) && forall i :: 0 <= i < |path| ==> NoSlash(path[i])
    ensures PathsOk(Save(sec, path, numeric))
    decreases sec, 0
  {
    LinesOk(sec.keys, numeric);
    SaveAllOk(sec.subs, path, numeric, cs);
  }

  lemma {:induction false} SaveAllOk(subs: seq<Section>, path: seq<string>, numeric: string -> bool, cs: bool)
    requires forall i :: 0 <= i < |subs| ==> NoSlash(subs[i].name) && Tidy(subs[i], cs)
    requires forall i :: 0 <= i < |path| ==> NoSlash(path[i])
    ensures PathsOk(SaveAll(subs, path, numeric))
    decreases subs, 1
  {
    if subs == [] {
    } else {
      SaveOk(subs[0], path + [subs[0].name], numeric, cs);
      SaveAllOk(subs[1..], path, numeric, cs);
    }
  }

  function SaveText(root: Section, numeric: string -> bool, ghost cs: bool): (r: seq<Text>)
    requires Tidy(root, cs)
  {
    SaveOk(root, [], numeric, cs);
    var entries := Save(root, [], numeric);
    seq(|entries|, k requires 0 <= k < |entries| => assert PathOk(entries[k]); Print(entries[k]))
  }

  function EvalText(root: Section, texts: seq<Text>, cs: bool): Section {
    Eval(root, [], seq(|texts|, k requires 0 <= k < |texts| => Read(texts[k])), cs).0
  }

  /** Reading what was printed is evaluating the lines themselves. */
  lemma {:induction false} EvalTextSave(root: Section, numeric: string -> bool, cs: bool)
    requires Tidy(root, cs)
    ensures EvalText(Section(root.name, [], []), SaveText(root, numeric, cs), cs) ==
            Eval(Section(root.name, [], []), [], Save(root, [], numeric), cs).0
  {
    SaveOk(root, [], numeric, cs);
    var entries, texts := Save(root, [], numeric), SaveText(root, numeric, cs);
    var back := seq(|texts|, k requires 0 <= k < |texts| => Read(texts[k]));
    forall k | 0 <= k < |entries| ensures back[k] == entries[k] {
      assert PathOk(entries[k]);
      ReadPrint(entries[k]);
    }
    assert back == entries;
  }

  /** Saving a tree and evaluating the saved lines rebuilds the same tree if and only if every key
      name can be read back. */
  lemma {:induction false} RoundTrip(root: Section, numeric: string -> bool, cs: bool)
    requires NumbersArePlain(numeric) && Tidy(root, cs)
    ensures EvalText(Section(root.name, [], []), SaveText(root, numeric, cs), cs) == root <==> NamesOk(root)
  {
    EvalTextSave(root, numeric, cs);
    if NamesOk(root) {
      EvalSave(root, numeric, cs);
    } else {
      EvalLengths(Section(root.name, [], []), [], Save(root, [], numeric), cs);
      SaveLengths(root, [], numeric);
    }
  }
}
