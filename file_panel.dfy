/** The file panel's pure helpers (spreadsheet column letters, attribute
    escaping) and its two browser-storage stores: per-file comment lists under
    the 'fileComments' entry and per-file settings under 'fileSettings'. A store
    entry that was never written is `None`; reading it yields the empty map. */
module FilePanel {
  import opened Wrappers

  // ---------------------------------------------------------------------
  // Spreadsheet column letters (bijective base 26)
  // ---------------------------------------------------------------------

  predicate IsUpper(c: char) {
    'A' <= c <= 'Z'
  }

  predicate AllUpper(s: string) {
    forall i :: 0 <= i < |s| ==> IsUpper(s[i])
  }

  function Letter(d: int): (c: char)
    requires 0 <= d < 26
    ensures IsUpper(c) && (c as int) - ('A' as int) == d
  {
    (65 + d) as char
  }

  /** The column name of a zero-based index: "A".."Z", "AA".."ZZ", "AAA", ...; no
      name (the empty string) for a negative index. */
  function ColumnName(n: int): (s: string)
    ensures AllUpper(s)
    decreases if n < 0 then 0 else n + 1
  {
    if n < 0 then "" else ColumnName(n / 26 - 1) + [Letter(n % 26)]
  }

  /** The zero-based index a column name denotes, -1 for the empty name. */
  function ColumnIndex(s: string): (n: int)
    requires AllUpper(s)
    ensures n >= -1
    ensures s != [] ==> n >= 0
  {
    if s == [] then -1
    else (ColumnIndex(s[..|s| - 1]) + 1) * 26 + ((s[|s| - 1] as int) - ('A' as int))
  }

  /** `getColumnLetter`: prepends one letter per base-26 digit. */
  method GetColumnLetter(index: int) returns (letter: string)
    ensures letter == ColumnName(index)
  {
    letter := "";
    var i := index;
    while i >= 0
      invariant ColumnName(index) == ColumnName(i) + letter
      decreases if i < 0 then 0 else i + 1
    {
      letter := [Letter(i % 26)] + letter;
      i := i / 26 - 1;
    }
  }

  lemma {:induction false} ColumnIndexOfName(n: int)
    requires n >= -1
    ensures ColumnIndex(ColumnName(n)) == n
    decreases n + 1
  {
    if n >= 0 {
      var q := n / 26 - 1;
      ColumnIndexOfName(q);
      var s := ColumnName(n);
      assert s[..|s| - 1] == ColumnName(q);
    }
  }

  lemma DivOfScaled(x: int, d: int)
    requires x >= 0 && 0 <= d < 26
    ensures (x * 26 + d) / 26 == x && (x * 26 + d) % 26 == d
  {
  }

  lemma {:induction false} ColumnNameOfIndex(s: string)
    requires AllUpper(s)
    ensures ColumnName(ColumnIndex(s)) == s
  {
    if s != [] {
      var t := s[..|s| - 1];
      var d := (s[|s| - 1] as int) - ('A' as int);
      ColumnNameOfIndex(t);
      var x := ColumnIndex(t) + 1;
      DivOfScaled(x, d);
      assert ColumnIndex(s) / 26 - 1 == ColumnIndex(t);
      assert Letter(ColumnIndex(s) % 26) == s[|s| - 1];
      assert s == t + [s[|s| - 1]];
    }
  }

  /** A non-negative index gets a non-empty name of capital letters, different
      indices get different names, and every capital-letter name is reached. */
  lemma ColumnNameBijective(m: int, n: int)
    ensures m >= 0 ==> ColumnName(m) != [] && AllUpper(ColumnName(m))
    ensures m < 0 ==> ColumnName(m) == ""
    ensures m >= 0 && n >= 0 && ColumnName(m) == ColumnName(n) ==> m == n
  {
    if m >= 0 && n >= 0 {
      ColumnIndexOfName(m);
      ColumnIndexOfName(n);
    }
  }

  lemma ColumnNameExamples()
    ensures ColumnName(0) == "A" && ColumnName(25) == "Z" && ColumnName(26) == "AA"
    ensures ColumnName(701) == "ZZ" && ColumnName(702) == "AAA"
  {
    assert ColumnName(-1) == "";
    assert Letter(0) == 'A' && Letter(25) == 'Z';
    assert ColumnName(0) == ColumnName(-1) + "A";
    assert ColumnName(25) == ColumnName(-1) + "Z";
    assert ColumnName(26) == ColumnName(0) + "A";
    assert ColumnName(701) == ColumnName(25) + "Z";
    assert ColumnName(702) == ColumnName(26) + "A";
  }

  // ---------------------------------------------------------------------
  // Attribute escaping
  // ---------------------------------------------------------------------

  /** `s.replace(/c/g, rep)` for a single character `c`. */
  function ReplaceAll(s: string, c: char, rep: string): string {
    if s == [] then []
    else (if s[0] == c then rep else [s[0]]) + ReplaceAll(s[1..], c, rep)
  }

  /** Every character of the result is a kept character of the text or comes
      from the replacement. */
  lemma {:induction false} ReplaceAllMembers(s: string, c: char, rep: string)
    ensures forall x :: x in ReplaceAll(s, c, rep) ==> (x in s && x != c) || x in rep
  {
    if s != [] {
      ReplaceAllMembers(s[1..], c, rep);
    }
  }

  lemma {:induction false} ReplaceAllConcat(a: string, b: string, c: char, rep: string)
    ensures ReplaceAll(a + b, c, rep) == ReplaceAll(a, c, rep) + ReplaceAll(b, c, rep)
  {
    if a != [] {
      var head := if a[0] == c then rep else [a[0]];
      assert (a + b)[0] == a[0];
      assert (a + b)[1..] == a[1..] + b;
      ReplaceAllConcat(a[1..], b, c, rep);
      assert ReplaceAll(a + b, c, rep) == head + ReplaceAll(a[1..] + b, c, rep);
      assert ReplaceAll(a, c, rep) == head + ReplaceAll(a[1..], c, rep);
    } else {
      assert a + b == b;
    }
  }

  /** `escapeAttr`: '&', then '"', '<' and '>' replaced by their entities. */
  function EscapeAttr(s: string): (r: string)
    ensures '"' !in r && '<' !in r && '>' !in r
  {
    var s1 := ReplaceAll(s, '&', "&amp;");
    var s2 := ReplaceAll(s1, '"', "&quot;");
    var s3 := ReplaceAll(s2, '<', "&lt;");
    ReplaceAllMembers(s1, '"', "&quot;");
    ReplaceAllMembers(s2, '<', "&lt;");
    ReplaceAllMembers(s3, '>', "&gt;");
    ReplaceAll(s3, '>', "&gt;")
  }

  /** The entity a single character becomes. */
  function EscapeChar(c: char): string {
    if c == '&' then "&amp;"
    else if c == '"' then "&quot;"
    else if c == '<' then "&lt;"
    else if c == '>' then "&gt;"
    else [c]
  }

  function EscapeEach(s: string): string {
    if s == [] then [] else EscapeChar(s[0]) + EscapeEach(s[1..])
  }

  lemma EscapeAttrChar(c: char)
    ensures EscapeAttr([c]) == EscapeChar(c)
  {
    if c == '&' {
      EscapeAmpersand();
    } else if c == '"' {
      EscapeQuote();
    } else if c == '<' {
      EscapeLess();
    } else if c == '>' {
      EscapeGreater();
    } else {
      ReplaceOne(c, '&', "&amp;");
      ReplaceOne(c, '"', "&quot;");
      ReplaceOne(c, '<', "&lt;");
      ReplaceOne(c, '>', "&gt;");
    }
  }

  lemma EscapeAmpersand()
    ensures EscapeAttr("&") == "&amp;"
  {
    ReplaceOne('&', '&', "&amp;");
    EntityUnchanged("&amp;");
  }

  /** A text holding none of '"', '<' and '>' passes the last three replacements
      unchanged. */
  lemma EntityUnchanged(t: string)
    requires forall i :: 0 <= i < |t| ==> t[i] != '"' && t[i] != '<' && t[i] != '>'
    ensures ReplaceAll(ReplaceAll(ReplaceAll(t, '"', "&quot;"), '<', "&lt;"), '>', "&gt;") == t
  {
    ReplaceAbsent(t, '"', "&quot;");
    ReplaceAbsent(t, '<', "&lt;");
    ReplaceAbsent(t, '>', "&gt;");
  }

  lemma EscapeQuote()
    ensures EscapeAttr("\"") == "&quot;"
  {
    ReplaceOne('"', '&', "&amp;");
    ReplaceOne('"', '"', "&quot;");
    AnglesUnchanged("&quot;");
  }

  /** A text holding neither '<' nor '>' passes the last two replacements
      unchanged. */
  lemma AnglesUnchanged(t: string)
    requires forall i :: 0 <= i < |t| ==> t[i] != '<' && t[i] != '>'
    ensures ReplaceAll(ReplaceAll(t, '<', "&lt;"), '>', "&gt;") == t
  {
    ReplaceAbsent(t, '<', "&lt;");
    ReplaceAbsent(t, '>', "&gt;");
  }

  lemma EscapeLess()
    ensures EscapeAttr("<") == "&lt;"
  {
    ReplaceOne('<', '&', "&amp;");
    ReplaceOne('<', '"', "&quot;");
    ReplaceOne('<', '<', "&lt;");
    ReplaceAbsent("&lt;", '>', "&gt;");
  }

  lemma EscapeGreater()
    ensures EscapeAttr(">") == "&gt;"
  {
    ReplaceOne('>', '&', "&amp;");
    ReplaceOne('>', '"', "&quot;");
    ReplaceOne('>', '<', "&lt;");
    ReplaceOne('>', '>', "&gt;");
  }

  /** Replacing in a one-character text. */
  lemma ReplaceOne(c: char, d: char, rep: string)
    ensures ReplaceAll([c], d, rep) == if c == d then rep else [c]
  {
    assert [c][1..] == [];
  }

  /** A text without the character is left alone. */
  lemma {:induction false} ReplaceAbsent(s: string, c: char, rep: string)
    requires forall i :: 0 <= i < |s| ==> s[i] != c
    ensures ReplaceAll(s, c, rep) == s
  {
    if s != [] {
      ReplaceAbsent(s[1..], c, rep);
      assert [s[0]] + s[1..] == s;
    }
  }

  /** Because '&' is replaced first, the chain equals escaping each character by
      itself: no entity introduced by a later replacement is escaped again. */
  lemma {:induction false} EscapeAttrIsPerChar(s: string)
    ensures EscapeAttr(s) == EscapeEach(s)
  {
    if s != [] {
      var c, t := s[0], s[1..];
      assert s == [c] + t;
      var r1a, r1b := ReplaceAll([c], '&', "&amp;"), ReplaceAll(t, '&', "&amp;");
      ReplaceAllConcat([c], t, '&', "&amp;");
      var r2a, r2b := ReplaceAll(r1a, '"', "&quot;"), ReplaceAll(r1b, '"', "&quot;");
      ReplaceAllConcat(r1a, r1b, '"', "&quot;");
      var r3a, r3b := ReplaceAll(r2a, '<', "&lt;"), ReplaceAll(r2b, '<', "&lt;");
      ReplaceAllConcat(r2a, r2b, '<', "&lt;");
      ReplaceAllConcat(r3a, r3b, '>', "&gt;");
      EscapeAttrChar(c);
      EscapeAttrIsPerChar(t);
    }
  }

  function StartsWith(s: string, p: string): bool {
    |p| <= |s| && s[..|p|] == p
  }

  /** The character the text starts with once an entity at its head is decoded,
      and how many characters that took. */
  function DecodeHead(s: string): (r: (char, nat))
    requires s != []
    ensures 1 <= r.1 <= |s|
  {
    if StartsWith(s, "&amp;") then ('&', 5)
    else if StartsWith(s, "&quot;") then ('"', 6)
    else if StartsWith(s, "&lt;") then ('<', 4)
    else if StartsWith(s, "&gt;") then ('>', 4)
    else (s[0], 1)
  }

  /** Decodes the four entities and copies every other character. */
  function Unescape(s: string): string
    decreases |s|
  {
    if s == [] then []
    else [DecodeHead(s).0] + Unescape(s[DecodeHead(s).1..])
  }

  lemma PrefixOfConcat(p: string, rest: string)
    ensures StartsWith(p + rest, p) && (p + rest)[|p|..] == rest
  {
    assert (p + rest)[..|p|] == p;
  }

  lemma DecodeHeadEscaped(c: char, rest: string)
    ensures DecodeHead(EscapeChar(c) + rest) == (c, |EscapeChar(c)|)
  {
    var s := EscapeChar(c) + rest;
    PrefixOfConcat(EscapeChar(c), rest);
    if c == '&' {
    } else if c == '"' {
      assert s[1] == 'q';
    } else if c == '<' {
      assert s[1] == 'l';
    } else if c == '>' {
      assert s[1] == 'g' && s[1] != 'l';
    } else {
      assert s[0] == c;
    }
  }

  lemma UnescapeStep(c: char, rest: string)
    ensures Unescape(EscapeChar(c) + rest) == [c] + Unescape(rest)
  {
    DecodeHeadEscaped(c, rest);
    PrefixOfConcat(EscapeChar(c), rest);
  }

  /** Escaping loses nothing: decoding the entities gives the original text back. */
  lemma {:induction false} UnescapeEscapeAttr(s: string)
    ensures Unescape(EscapeAttr(s)) == s
  {
    EscapeAttrIsPerChar(s);
    UnescapeEach(s);
  }

  lemma {:induction false} UnescapeEach(s: string)
    ensures Unescape(EscapeEach(s)) == s
  {
    if s != [] {
      UnescapeStep(s[0], EscapeEach(s[1..]));
      UnescapeEach(s[1..]);
    }
  }

  // ---------------------------------------------------------------------
  // Per-file comments
  // ---------------------------------------------------------------------

  /** A stored comment; the date and time strings come from the clock at save time. */
  datatype Comment = Comment(text: string, date: string, time: string)

  type CommentMap = map<string, seq<Comment>>

  /** `all[filename] || []`. */
  function CommentsOf(all: CommentMap, filename: string): (cs: seq<Comment>)
    ensures filename !in all ==> cs == []
    ensures filename in all ==> cs == all[filename]
  {
    if filename in all then all[filename] else []
  }

  /** The store after appending one comment to a file's list. */
  function WithComment(all: CommentMap, filename: string, c: Comment): (r: CommentMap)
    ensures r.Keys == all.Keys + {filename}
  {
    all[filename := CommentsOf(all, filename) + [c]]
  }

  /** `list.splice(index, 1)`. */
  function RemoveAt<T>(s: seq<T>, index: nat): (r: seq<T>)
    requires index < |s|
    ensures |r| == |s| - 1
    ensures forall k :: 0 <= k < index ==> r[k] == s[k]
    ensures forall k :: index <= k < |r| ==> r[k] == s[k + 1]
    ensures multiset(r) + multiset{s[index]} == multiset(s)
  {
    assert s == s[..index] + [s[index]] + s[index + 1..];
    s[..index] + s[index + 1..]
  }

  /** Whether the delete guard `all[filename] && all[filename][index]` passes. */
  predicate CanDelete(all: CommentMap, filename: string, index: int) {
    filename in all && 0 <= index < |all[filename]|
  }

  /** Saving appends exactly the one comment to that file and touches no other file. */
  lemma SaveComment(all: CommentMap, filename: string, c: Comment, other: string)
    requires other != filename
    ensures CommentsOf(WithComment(all, filename, c), filename) == CommentsOf(all, filename) + [c]
    ensures CommentsOf(WithComment(all, filename, c), other) == CommentsOf(all, other)
  {
  }

  /** Deleting an in-range index removes exactly that comment of that file. */
  lemma DeleteComment(all: CommentMap, filename: string, index: nat, other: string)
    requires CanDelete(all, filename, index) && other != filename
    ensures var r := all[filename := RemoveAt(all[filename], index)];
      && CommentsOf(r, filename) == all[filename][..index] + all[filename][index + 1..]
      && CommentsOf(r, other) == CommentsOf(all, other)
  {
  }

  class CommentStore {
    /** The parsed 'fileComments' entry, or None when it was never written. */
    var stored: Option<CommentMap>

    function All(): CommentMap
      reads this
    {
      stored.GetOr(map[])
    }

    constructor (initial: Option<CommentMap>)
      ensures stored == initial
    {
      stored := initial;
    }

    /** `getFileComments`: the file's list, or an empty list for a file with none. */
    function GetFileComments(filename: string): (cs: seq<Comment>)
      reads this
      ensures filename !in All() ==> cs == []
      ensures filename in All() ==> cs == All()[filename]
    {
      CommentsOf(All(), filename)
    }

    /** `saveFileComment`: appends and always writes the entry back. */
    method SaveFileComment(filename: string, text: string, date: string, time: string)
      modifies this
      ensures stored == Some(WithComment(old(All()), filename, Comment(text, date, time)))
    {
      var all := All();
      if filename !in all {
        all := all[filename := []];
      }
      assert all[filename] == CommentsOf(old(All()), filename);
      var v := all[filename] + [Comment(text, date, time)];
      assert all[filename := v] == old(All())[filename := v];
      all := all[filename := v];
      stored := Some(all);
    }

    /** `deleteFileComment`: removes one comment when the file has one at that
        index; otherwise nothing is written. */
    method DeleteFileComment(filename: string, index: int)
      modifies this
      ensures CanDelete(old(All()), filename, index) ==>
        stored == Some(old(All())[filename := RemoveAt(old(All())[filename], index)])
      ensures !CanDelete(old(All()), filename, index) ==> stored == old(stored)
    {
      var all := All();
      if filename in all && 0 <= index < |all[filename]| {
        all := all[filename := RemoveAt(all[filename], index)];
        stored := Some(all);
      }
    }
  }

  // ---------------------------------------------------------------------
  // Per-file settings
  // ---------------------------------------------------------------------

  /** `all[filename] || {}`. */
  function SettingsOf<V>(all: map<string, map<string, V>>, filename: string): (s: map<string, V>)
    ensures filename !in all ==> s == map[]
    ensures filename in all ==> s == all[filename]
  {
    if filename in all then all[filename] else map[]
  }

  /** The store after `all[filename][key] = value`. */
  function WithSetting<V>(all: map<string, map<string, V>>, filename: string, key: string, value: V)
    : (r: map<string, map<string, V>>)
    ensures r.Keys == all.Keys + {filename}
  {
    all[filename := SettingsOf(all, filename)[key := value]]
  }

  /** Setting a key changes that key of that file and nothing else. */
  lemma SaveSetting<V>(all: map<string, map<string, V>>, filename: string, key: string, value: V,
                       otherFile: string, otherKey: string)
    requires otherFile != filename && otherKey != key
    ensures var r := WithSetting(all, filename, key, value);
      && key in SettingsOf(r, filename) && SettingsOf(r, filename)[key] == value
      && SettingsOf(r, filename).Keys == SettingsOf(all, filename).Keys + {key}
      && (otherKey in SettingsOf(all, filename) ==>
            otherKey in SettingsOf(r, filename) && SettingsOf(r, filename)[otherKey] == SettingsOf(all, filename)[otherKey])
      && SettingsOf(r, otherFile) == SettingsOf(all, otherFile)
  {
  }

  class SettingsStore<V> {
    /** The parsed 'fileSettings' entry, or None when it was never written. */
    var stored: Option<map<string, map<string, V>>>

    function All(): map<string, map<string, V>>
      reads this
    {
      stored.GetOr(map[])
    }

    constructor (initial: Option<map<string, map<string, V>>>)
      ensures stored == initial
    {
      stored := initial;
    }

    /** `getFileSettings`: the file's settings, or an empty object for an unknown file. */
    function GetFileSettings(filename: string): (s: map<string, V>)
      reads this
      ensures filename !in All() ==> s == map[]
      ensures filename in All() ==> s == All()[filename]
    {
      SettingsOf(All(), filename)
    }

    /** `saveFileSetting`: sets one key for one file and writes the entry back. */
    method SaveFileSetting(filename: string, key: string, value: V)
      modifies this
      ensures stored == Some(WithSetting(old(All()), filename, key, value))
    {
      var all := All();
      if filename !in all {
        all := all[filename := map[]];
      }
      assert all[filename] == SettingsOf(old(All()), filename);
      var v := all[filename][key := value];
      assert all[filename := v] == old(All())[filename := v];
      all := all[filename := v];
      stored := Some(all);
    }
  }
}
