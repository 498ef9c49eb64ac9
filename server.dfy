/** The classification rules of the local development server: the extension of
    an uploaded file name (Node's `path.extname`), the file-type table, the
    folder an upload is routed to, the two upload allow-lists, the anchored
    glob matcher, the byte-size formatter and the scoring of the design-system
    audit. `path.extname` is modelled in its POSIX form, where '/' is the only
    separator. */
module Server {
  import opened Wrappers
  import opened Text

  // ---------------------------------------------------------------------
  // path.extname
  // ---------------------------------------------------------------------

  /** The index of the last occurrence of `c`. */
  function LastIndexOf(s: string, c: char): (r: Option<nat>)
    ensures r.Some? ==> r.value < |s| && s[r.value] == c
    ensures r.Some? ==> forall k :: r.value < k < |s| ==> s[k] != c
    ensures r.None? <==> c !in s
  {
    if s == [] then None
    else if s[|s| - 1] == c then Some(|s| - 1)
    else
      assert s == s[..|s| - 1] + [s[|s| - 1]];
      LastIndexOf(s[..|s| - 1], c)
  }

  /** The path without its trailing slashes. */
  function StripTrailingSlashes(s: string): (r: string)
    ensures |r| <= |s| && r == s[..|r|]
    ensures r == [] || r[|r| - 1] != '/'
    ensures forall k :: |r| <= k < |s| ==> s[k] == '/'
  {
    if s != [] && s[|s| - 1] == '/' then StripTrailingSlashes(s[..|s| - 1]) else s
  }

  /** The last path component, after trailing slashes are ignored. */
  function BaseName(path: string): (b: string)
    ensures '/' !in b
  {
    var t := StripTrailingSlashes(path);
    match LastIndexOf(t, '/')
    case None => t
    case Some(i) => t[i + 1..]
  }

  /** `path.extname`: the last component's text from its last '.', or "" when it
      has no '.', when that '.' is its first character, or when it is "..". */
  function ExtName(path: string): (e: string)
    ensures e == [] || (e[0] == '.' && '.' !in e[1..])
    ensures '/' !in e
  {
    var b := BaseName(path);
    match LastIndexOf(b, '.')
    case None => ""
    case Some(d) =>
      if d == 0 || b == ".." then ""
      else
        assert forall k :: 1 <= k < |b[d..]| ==> b[d..][k] == b[d + k];
        b[d..]
  }

  /** A name `stem.suffix` has extension ".suffix"; a name without '.' has none. */
  lemma ExtNameOf(stem: string, suffix: string)
    requires stem != [] && '/' !in stem && '/' !in suffix && '.' !in suffix
    requires !(stem == "." && suffix == "")
    ensures ExtName(stem + "." + suffix) == "." + suffix
    ensures '.' !in stem ==> ExtName(stem) == ""
  {
    var b := stem + "." + suffix;
    assert StripTrailingSlashes(b) == b by {
      if suffix == [] { assert b[|b| - 1] == '.'; } else { assert b[|b| - 1] == suffix[|suffix| - 1]; }
    }
    assert '/' !in b;
    assert BaseName(b) == b;
    assert b[|stem|] == '.';
    assert forall k :: |stem| < k < |b| ==> b[k] == suffix[k - |stem| - 1];
    var d := LastIndexOf(b, '.');
    assert d == Some(|stem|);
    assert b[0] == stem[0];
    assert |stem| == 1 ==> stem == [stem[0]];
    assert b[|stem|..] == "." + suffix;
    if '.' !in stem {
      if stem[|stem| - 1] == '/' { assert false; }
      assert StripTrailingSlashes(stem) == stem;
    }
  }

  /** A leading dot does not start an extension ("hidden" names such as
      ".bashrc"), and ".." has none. */
  lemma ExtNameOfDotFiles(rest: string)
    requires '/' !in rest && '.' !in rest
    ensures ExtName("." + rest) == "" && ExtName("..") == ""
  {
    var b := "." + rest;
    assert b[|b| - 1] != '/';
    assert StripTrailingSlashes(b) == b;
    assert '/' !in b;
    assert BaseName(b) == b;
    assert forall k :: 0 < k < |b| ==> b[k] == rest[k - 1];
    assert LastIndexOf(b, '.') == Some(0);
    var d := "..";
    assert StripTrailingSlashes(d) == d;
    assert '/' !in d;
    assert BaseName(d) == d;
  }

  /** The lower-cased extension every server rule keys on. */
  function Ext(name: string): string {
    Lower(ExtName(name))
  }

  // ---------------------------------------------------------------------
  // File types, routing and allow-lists
  // ---------------------------------------------------------------------

  const UploadExts: seq<string> := [".pdf", ".xlsx", ".xls", ".csv", ".pptx", ".ppt", ".key", ".doc", ".docx"]
  const AttachmentExts: seq<string> := [".pdf", ".xlsx", ".xls", ".csv", ".png", ".jpg", ".jpeg", ".gif"]

  /** The `types` table of `getFileType`, with 'file' for an extension it lacks. */
  function TypeOfExt(e: string): (t: string)
    ensures t in {"pdf", "xlsx", "csv", "pptx", "doc", "file"}
  {
    if e == ".pdf" then "pdf"
    else if e == ".xlsx" || e == ".xls" then "xlsx"
    else if e == ".csv" then "csv"
    else if e == ".pptx" || e == ".ppt" || e == ".key" then "pptx"
    else if e == ".doc" || e == ".docx" then "doc"
    else "file"
  }

  /** `getFileType`: the table entry for the lower-cased extension. */
  function GetFileType(filename: string): string {
    TypeOfExt(Ext(filename))
  }

  /** The main upload filter. */
  predicate UploadAllowed(originalname: string) {
    Ext(originalname) in UploadExts
  }

  /** The attachment upload filter. */
  predicate AttachmentAllowed(originalname: string) {
    Ext(originalname) in AttachmentExts
  }

  const BaseFolder := "references/files"
  const Presentations := "references/files/presentations"
  const Spreadsheets := "references/files/spreadsheets"
  const Documents := "references/files/documents"

  /** The multer destination of an upload. */
  function UploadFolder(originalname: string): (folder: string)
    ensures folder in {BaseFolder, Presentations, Spreadsheets, Documents}
  {
    FolderOfExt(Ext(originalname))
  }

  function FolderOfExt(e: string): string {
    if e in [".pptx", ".ppt", ".key"] then Presentations
    else if e in [".xlsx", ".xls", ".csv"] then Spreadsheets
    else if e in [".pdf"] then Documents
    else BaseFolder
  }

  /** The type table covers exactly the main upload list: a file is given a type
      other than 'file' if and only if the main filter accepts it. */
  lemma TypedIffUploadAllowed(name: string)
    ensures GetFileType(name) != "file" <==> UploadAllowed(name)
  {
    TypedIffListed(Ext(name));
  }

  lemma TypedIffListed(e: string)
    ensures TypeOfExt(e) != "file" <==> e in UploadExts
  {
    if e in UploadExts {
      assert e == ".pdf" || e == ".xlsx" || e == ".xls" || e == ".csv" || e == ".pptx"
        || e == ".ppt" || e == ".key" || e == ".doc" || e == ".docx";
    }
  }

  /** The routing agrees with the type table: presentations hold the 'pptx' types,
      spreadsheets the 'xlsx' and 'csv' types, documents the 'pdf' type, and
      every other file (a Word document among them) lands in the base folder. */
  lemma UploadFolderMatchesType(name: string)
    ensures UploadFolder(name) == Presentations <==> GetFileType(name) == "pptx"
    ensures UploadFolder(name) == Spreadsheets <==> GetFileType(name) in {"xlsx", "csv"}
    ensures UploadFolder(name) == Documents <==> GetFileType(name) == "pdf"
    ensures UploadFolder(name) == BaseFolder <==> GetFileType(name) in {"doc", "file"}
  {
    FolderMatchesType(Ext(name));
  }

  lemma FolderMatchesType(e: string)
    ensures FolderOfExt(e) == Presentations <==> TypeOfExt(e) == "pptx"
    ensures FolderOfExt(e) == Spreadsheets <==> TypeOfExt(e) in {"xlsx", "csv"}
    ensures FolderOfExt(e) == Documents <==> TypeOfExt(e) == "pdf"
    ensures FolderOfExt(e) == BaseFolder <==> TypeOfExt(e) in {"doc", "file"}
  {
    assert e in [".pptx", ".ppt", ".key"] <==> e == ".pptx" || e == ".ppt" || e == ".key";
    assert e in [".xlsx", ".xls", ".csv"] <==> e == ".xlsx" || e == ".xls" || e == ".csv";
    assert e in [".pdf"] <==> e == ".pdf";
  }

  /** The attachment list shares the document and spreadsheet extensions and adds
      four image extensions, all of which the type table calls 'file'. */
  lemma AttachmentTypes(name: string)
    ensures AttachmentAllowed(name) && !UploadAllowed(name) <==> Ext(name) in [".png", ".jpg", ".jpeg", ".gif"]
    ensures Ext(name) in [".png", ".jpg", ".jpeg", ".gif"] ==> GetFileType(name) == "file"
  {
    ImageExts(Ext(name));
  }

  lemma ImageExts(e: string)
    ensures e in AttachmentExts && e !in UploadExts <==> e in [".png", ".jpg", ".jpeg", ".gif"]
    ensures e in [".png", ".jpg", ".jpeg", ".gif"] ==> TypeOfExt(e) == "file"
  {
    if e in AttachmentExts && e in UploadExts {
      assert e in [".png", ".jpg", ".jpeg", ".gif"] ==> false;
    }
  }

  /** The extension of `stem.suffix` as the rules see it: lower-cased. */
  lemma ExtOf(stem: string, suffix: string)
    requires stem != [] && '/' !in stem && '/' !in suffix && '.' !in suffix
    requires !(stem == "." && suffix == "")
    ensures Ext(stem + "." + suffix) == "." + Lower(suffix)
  {
    ExtNameOf(stem, suffix);
    var e := "." + suffix;
    assert e != [] && e[0] == '.' && e[1..] == suffix;
    assert LowerChar('.') == '.';
  }

  /** Both filters and the type table ignore letter case: names that differ only
      in the case of their extension are treated alike. */
  lemma CaseInsensitive(stem: string, suffix: string, suffix2: string)
    requires stem != [] && '/' !in stem && stem != "."
    requires '/' !in suffix + suffix2 && '.' !in suffix + suffix2
    requires Lower(suffix) == Lower(suffix2)
    ensures UploadAllowed(stem + "." + suffix) == UploadAllowed(stem + "." + suffix2)
    ensures AttachmentAllowed(stem + "." + suffix) == AttachmentAllowed(stem + "." + suffix2)
    ensures GetFileType(stem + "." + suffix) == GetFileType(stem + "." + suffix2)
    ensures UploadFolder(stem + "." + suffix) == UploadFolder(stem + "." + suffix2)
  {
    assert '/' !in suffix && '.' !in suffix by {
      assert forall i :: 0 <= i < |suffix| ==> suffix[i] == (suffix + suffix2)[i];
    }
    assert '/' !in suffix2 && '.' !in suffix2 by {
      assert forall i :: 0 <= i < |suffix2| ==> suffix2[i] == (suffix + suffix2)[|suffix| + i];
    }
    ExtOf(stem, suffix);
    ExtOf(stem, suffix2);
  }

  /** Entries of the type table, upper-case spellings being lower-cased first. */
  lemma TypeTable()
    ensures TypeOfExt(".xls") == "xlsx" && TypeOfExt(".key") == "pptx"
    ensures TypeOfExt(".docx") == "doc" && TypeOfExt(".png") == "file" && TypeOfExt("") == "file"
    ensures Lower(".XLS") == ".xls"
  {
  }

  /** A PNG is accepted as an attachment only, and is typed 'file'. */
  lemma ImageAttachment(stem: string)
    requires stem != [] && '/' !in stem
    ensures GetFileType(stem + ".png") == "file"
    ensures AttachmentAllowed(stem + ".png") && !UploadAllowed(stem + ".png")
  {
    PngExt(stem);
    AttachmentTypes(stem + ".png");
  }

  lemma PngExt(stem: string)
    requires stem != [] && '/' !in stem
    ensures Ext(stem + ".png") == ".png"
  {
    ExtNameOf(stem, "png");
    assert stem + "." + "png" == stem + ".png";
    assert Lower(".png") == ".png";
  }

  // ---------------------------------------------------------------------
  // matchGlob
  // ---------------------------------------------------------------------

  /** The characters the glob patterns of the audit are written with. Other
      regular-expression metacharacters are outside the model. */
  predicate GlobChar(c: char) {
    IsDigit(c) || 'a' <= c <= 'z' || 'A' <= c <= 'Z' || c == '.' || c == '*' || c == '?'
  }

  predicate GlobPattern(p: string) {
    forall i :: 0 <= i < |p| ==> GlobChar(p[i])
  }

  /** One element of the regular expression the pattern becomes. */
  datatype Atom = Lit(c: char) | AnyChar | AnyRun

  /** The characters the regular-expression '.' refuses. */
  predicate LineTerminator(c: char) {
    c == '\n' || c == '\r' || c == ' ' || c == ' '
  }

  predicate NoLineTerminator(s: string) {
    forall i :: 0 <= i < |s| ==> !LineTerminator(s[i])
  }

  /** The regular expression as written: '*' becomes '.*', '?' becomes '.', and
      a '.' of the pattern keeps its meaning 'any character'. */
  function GlobAtoms(p: string): (atoms: seq<Atom>)
    ensures |atoms| == |p|
  {
    if p == [] then []
    else
      var a := if p[0] == '*' then AnyRun else if p[0] == '?' || p[0] == '.' then AnyChar else Lit(p[0]);
      [a] + GlobAtoms(p[1..])
  }

  /** Whether the whole of `s` matches the atoms (the expression is anchored by
      '^' and '$'). */
  predicate Matches(atoms: seq<Atom>, s: string)
    decreases |atoms|, |s|
  {
    if atoms == [] then s == []
    else match atoms[0]
      case Lit(c) => s != [] && s[0] == c && Matches(atoms[1..], s[1..])
      case AnyChar => s != [] && !LineTerminator(s[0]) && Matches(atoms[1..], s[1..])
      case AnyRun =>
        Matches(atoms[1..], s) || (s != [] && !LineTerminator(s[0]) && Matches(atoms, s[1..]))
  }

  /** `matchGlob`. */
  predicate MatchGlob(s: string, pattern: string)
    requires GlobPattern(pattern)
  {
    Matches(GlobAtoms(pattern), s)
  }

  /** A leading run atom matches a prefix of any length without line terminators,
      followed by whatever the rest of the pattern matches. */
  lemma {:induction false} AnyRunSplits(rest: seq<Atom>, s: string)
    ensures Matches([AnyRun] + rest, s) <==>
      exists k :: 0 <= k <= |s| && NoLineTerminator(s[..k]) && Matches(rest, s[k..])
    decreases |s|
  {
    var atoms := [AnyRun] + rest;
    assert atoms[1..] == rest;
    if Matches(atoms, s) {
      if Matches(rest, s) {
        assert s[..0] == [] && s[0..] == s;
      } else {
        AnyRunSplits(rest, s[1..]);
        var k :| 0 <= k <= |s[1..]| && NoLineTerminator(s[1..][..k]) && Matches(rest, s[1..][k..]);
        assert s[1..][k..] == s[k + 1..];
        var run, tail := s[..k + 1], s[1..][..k];
        forall i | 0 <= i < |run|
          ensures !LineTerminator(run[i])
        {
          if i > 0 { assert run[i] == tail[i - 1]; }
        }
        assert NoLineTerminator(run);
      }
    }
    if exists k :: 0 <= k <= |s| && NoLineTerminator(s[..k]) && Matches(rest, s[k..]) {
      var k :| 0 <= k <= |s| && NoLineTerminator(s[..k]) && Matches(rest, s[k..]);
      if k == 0 {
        assert s[0..] == s;
      } else {
        assert !LineTerminator(s[..k][0]);
        assert s[1..][k - 1..] == s[k..];
        var run, tail := s[..k], s[1..][..k - 1];
        forall i | 0 <= i < |tail|
          ensures !LineTerminator(tail[i])
        {
          assert tail[i] == run[i + 1];
        }
        assert NoLineTerminator(tail);
        AnyRunSplits(rest, s[1..]);
      }
    }
  }

  /** Literal atoms match exactly their own text. */
  lemma {:induction false} LiteralsMatchOnlyThemselves(t: string, s: string)
    requires forall i :: 0 <= i < |t| ==> t[i] != '*' && t[i] != '?' && t[i] != '.'
    ensures Matches(GlobAtoms(t), s) <==> s == t
  {
    if t != [] {
      var a := GlobAtoms(t);
      assert a[0] == Lit(t[0]) && a[1..] == GlobAtoms(t[1..]);
      if s != [] {
        LiteralsMatchOnlyThemselves(t[1..], s[1..]);
        if s[0] == t[0] && s[1..] == t[1..] {
          assert s == [s[0]] + s[1..] && t == [t[0]] + t[1..];
        }
      }
    }
  }

  /** '*' matches any run, the empty one included, and '?' exactly one character
      (line terminators aside). */
  lemma StarAlone(s: string)
    ensures MatchGlob(s, "*") <==> NoLineTerminator(s)
  {
    assert "*"[1..] == [];
    assert GlobAtoms("*") == [AnyRun] + [];
    AnyRunSplits([], s);
    if NoLineTerminator(s) {
      assert s[..|s|] == s && s[|s|..] == [];
    }
    if MatchGlob(s, "*") {
      var k :| 0 <= k <= |s| && NoLineTerminator(s[..k]) && Matches([], s[k..]);
      assert s[..k] == s;
    }
  }

  lemma QuestionAlone(s: string)
    ensures MatchGlob(s, "?") <==> |s| == 1 && !LineTerminator(s[0])
  {
    assert "?"[1..] == [];
    assert GlobAtoms("?") == [AnyChar];
    assert [AnyChar][1..] == [];
    if s != [] {
      assert Matches([], s[1..]) <==> |s| == 1;
      assert Matches([AnyChar], s) <==> !LineTerminator(s[0]) && Matches([], s[1..]);
    }
  }

  /** The as-written matcher lets '.' stand for any character, so "*.css" also
      accepts a name such as "buttoncss" that has no '.' at all. */
  lemma DotMatchesAnyCharacter(stem: string, c: char)
    requires NoLineTerminator(stem) && !LineTerminator(c)
    ensures MatchGlob(stem + [c] + "css", "*.css")
  {
    var s := stem + [c] + "css";
    var a := GlobAtoms("*.css");
    var rest := GlobAtoms(".css");
    assert "*.css"[1..] == ".css" && ".css"[1..] == "css";
    assert a == [AnyRun] + rest;
    assert rest == [AnyChar] + GlobAtoms("css");
    var k := |stem|;
    assert s[k..] == [c] + "css" && s[..k] == stem;
    LiteralsMatchOnlyThemselves("css", "css");
    assert ([c] + "css")[1..] == "css";
    assert Matches(rest, s[k..]);
    AnyRunSplits(rest, s);
  }

  /** The evidently intended translation: a '.' of the pattern is a literal dot. */
  function GlobAtomsLiteralDot(p: string): (atoms: seq<Atom>)
    ensures |atoms| == |p|
    ensures forall i :: 0 <= i < |p| && p[i] != '*' && p[i] != '?' ==> atoms[i] == Lit(p[i])
  {
    if p == [] then []
    else
      var a := if p[0] == '*' then AnyRun else if p[0] == '?' then AnyChar else Lit(p[0]);
      [a] + GlobAtomsLiteralDot(p[1..])
  }

  predicate MatchGlobLiteralDot(s: string, pattern: string)
    requires GlobPattern(pattern)
  {
    Matches(GlobAtomsLiteralDot(pattern), s)
  }

  /** With a literal dot, "*" followed by a wildcard-free suffix matches exactly
      the names that end with that suffix. */
  lemma {:induction false} StarSuffix(suffix: string, s: string)
    requires GlobPattern(suffix)
    requires forall i :: 0 <= i < |suffix| ==> suffix[i] != '*' && suffix[i] != '?'
    requires NoLineTerminator(s)
    ensures MatchGlobLiteralDot(s, "*" + suffix) <==>
      |suffix| <= |s| && s[|s| - |suffix|..] == suffix
  {
    var p := "*" + suffix;
    assert p[1..] == suffix;
    var rest := GlobAtomsLiteralDot(suffix);
    assert GlobAtomsLiteralDot(p) == [AnyRun] + rest;
    forall t: string
      ensures Matches(rest, t) <==> t == suffix
    {
      LiteralSuffixMatches(suffix, t);
    }
    AnyRunThenExactly(rest, suffix, s);
  }

  /** A leading '.*' before atoms that match exactly one text matches the
      single-line texts that end with it. */
  lemma AnyRunThenExactly(rest: seq<Atom>, target: string, s: string)
    requires forall t :: Matches(rest, t) <==> t == target
    requires NoLineTerminator(s)
    ensures Matches([AnyRun] + rest, s) <==> |target| <= |s| && s[|s| - |target|..] == target
  {
    if |target| <= |s| && s[|s| - |target|..] == target {
      AnyRunBeforeSuffix(rest, target, s);
    }
    if Matches([AnyRun] + rest, s) {
      AnyRunOnlyBeforeSuffix(rest, target, s);
    }
  }

  lemma AnyRunBeforeSuffix(rest: seq<Atom>, target: string, s: string)
    requires forall t :: Matches(rest, t) <==> t == target
    requires NoLineTerminator(s) && |target| <= |s| && s[|s| - |target|..] == target
    ensures Matches([AnyRun] + rest, s)
  {
    AnyRunSplits(rest, s);
    var k := |s| - |target|;
    assert NoLineTerminator(s[..k]) by {
      assert forall i :: 0 <= i < k ==> s[..k][i] == s[i];
    }
    assert Matches(rest, s[k..]);
  }

  lemma AnyRunOnlyBeforeSuffix(rest: seq<Atom>, target: string, s: string)
    requires forall t :: Matches(rest, t) <==> t == target
    requires Matches([AnyRun] + rest, s)
    ensures |target| <= |s| && s[|s| - |target|..] == target
  {
    AnyRunSplits(rest, s);
    var k :| 0 <= k <= |s| && NoLineTerminator(s[..k]) && Matches(rest, s[k..]);
    assert s[k..] == target;
  }

  /** Under the intended reading "*.css" refuses a name that lacks the dot. */
  lemma LiteralDotRequiresDot(stem: string, c: char)
    requires NoLineTerminator(stem) && !LineTerminator(c)
    ensures MatchGlobLiteralDot(stem + [c] + "css", "*.css") <==> c == '.'
  {
    var s := stem + [c] + "css";
    assert ".css"[1..] == "css";
    assert "*" + ".css" == "*.css";
    assert NoLineTerminator(s) by {
      forall i | 0 <= i < |s|
        ensures !LineTerminator(s[i])
      {
        if i < |stem| { assert s[i] == stem[i]; }
      }
    }
    StarSuffix(".css", s);
    assert s[|s| - 4..] == [c] + "css";
  }

  lemma {:induction false} LiteralSuffixMatches(t: string, s: string)
    requires forall i :: 0 <= i < |t| ==> t[i] != '*' && t[i] != '?'
    ensures Matches(GlobAtomsLiteralDot(t), s) <==> s == t
  {
    if t != [] {
      var a := GlobAtomsLiteralDot(t);
      assert a[0] == Lit(t[0]) && a[1..] == GlobAtomsLiteralDot(t[1..]);
      if s != [] {
        LiteralSuffixMatches(t[1..], s[1..]);
        if s[0] == t[0] && s[1..] == t[1..] {
          assert s == [s[0]] + s[1..] && t == [t[0]] + t[1..];
        }
      }
    }
  }

  // ---------------------------------------------------------------------
  // formatFileSize
  // ---------------------------------------------------------------------

  /** A formatted size: the exact byte text, or a KB / MB value whose
      one-decimal rendering is outside the model. */
  datatype SizeText = Bytes(text: string) | Kilo(kb: real) | Mega(mb: real)

  /** `formatFileSize` of the server. */
  function FormatFileSize(bytes: nat): (r: SizeText)
    ensures r.Bytes? <==> bytes < 1024
    ensures r.Kilo? <==> 1024 <= bytes < 1024 * 1024
    ensures r.Kilo? ==> 1.0 <= r.kb < 1024.0 && r.kb * 1024.0 == bytes as real
    ensures r.Mega? ==> 1.0 <= r.mb && r.mb * (1024.0 * 1024.0) == bytes as real
  {
    if bytes < 1024 then Bytes(NatToDecimal(bytes) + " B")
    else if bytes < 1024 * 1024 then Kilo(bytes as real / 1024.0)
    else Mega(bytes as real / (1024.0 * 1024.0))
  }

  /** The byte branch prints the exact count and the unit: reading the digits back
      gives the count. */
  lemma ByteTextRoundTrip(bytes: nat)
    requires bytes < 1024
    ensures var t := FormatFileSize(bytes).text;
      |t| > 2 && t[|t| - 2..] == " B" && AllDigits(t[..|t| - 2])
      && ParseDecimal(t[..|t| - 2]) == bytes
  {
    var d := NatToDecimal(bytes);
    var t := d + " B";
    assert t[..|t| - 2] == d && t[|t| - 2..] == " B";
    ParseNatToDecimal(bytes);
  }

  // ---------------------------------------------------------------------
  // runAudit scoring
  // ---------------------------------------------------------------------

  datatype Summary = Summary(total: nat, critical: nat, high: nat, medium: nat, low: nat)

  /** One colour literal found in a stylesheet line. */
  datatype ColorHit = ColorHit(file: string, line: nat, color: string)

  const AllowedColors: seq<string> := ["#fff", "#ffffff", "#000", "#000000", "#e0e0e0"]

  /** The hits that are not one of the allowed colours, compared in lower case. */
  function Hardcoded(hits: seq<ColorHit>): (r: seq<ColorHit>)
  {
    if hits == [] then [] else Kept(hits[0]) + Hardcoded(hits[1..])
  }

  /** The hardcoded hits are those whose colour is not allowed, and no more of
      them than there are hits. */
  lemma {:induction false} HardcodedMembers(hits: seq<ColorHit>)
    ensures |Hardcoded(hits)| <= |hits|
    ensures forall h :: h in Hardcoded(hits) <==> h in hits && Lower(h.color) !in AllowedColors
  {
    if hits != [] {
      HardcodedMembers(hits[1..]);
      assert hits == [hits[0]] + hits[1..];
    }
  }

  /** The hit itself, or nothing when its colour is allowed. */
  function Kept(h: ColorHit): seq<ColorHit> {
    if Allowed(h.color) then [] else [h]
  }

  /** Whether a colour is one of the allowed ones, compared in lower case. */
  predicate Allowed(color: string) {
    Lower(color) in AllowedColors
  }

  /** What the audit reports about one run of its checks. */
  datatype Audit = Audit(summary: Summary, hardcodedCount: nat, hardcodedIssues: seq<ColorHit>,
                         consoleLogCount: nat, missingResponsive: nat)

  /** `runAudit`: the colour hits of every stylesheet line, the number of lines
      mentioning console.log, and the number of stylesheets without '@media' are
      the inputs; every severity raised also raises the total. */
  method RunAudit(hits: seq<ColorHit>, consoleLogs: nat, missingResponsive: nat) returns (audit: Audit)
    ensures audit.hardcodedCount == |Hardcoded(hits)|
    ensures audit.hardcodedIssues == Hardcoded(hits)[..if |Hardcoded(hits)| < 20 then |Hardcoded(hits)| else 20]
    ensures audit.summary.total == audit.summary.critical + audit.summary.high
                                   + audit.summary.medium + audit.summary.low
    ensures audit.summary.critical == 0
    ensures audit.summary.high == (if |Hardcoded(hits)| > 0 then 1 else 0)
    ensures audit.summary.low == (if consoleLogs > 0 then 1 else 0)
    ensures audit.summary.medium == (if missingResponsive > 10 then 1 else 0)
    ensures audit.consoleLogCount == consoleLogs && audit.missingResponsive == missingResponsive
  {
    var summary := Summary(0, 0, 0, 0, 0);
    var found := CollectHardcoded(hits);
    var shown := if |found| < 20 then |found| else 20;
    if |found| > 0 {
      summary := summary.(high := summary.high + 1, total := summary.total + 1);
    }
    if consoleLogs > 0 {
      summary := summary.(low := summary.low + 1, total := summary.total + 1);
    }
    if missingResponsive > 10 {
      summary := summary.(medium := summary.medium + 1, total := summary.total + 1);
    }
    audit := Audit(summary, |found|, found[..shown], consoleLogs, missingResponsive);
  }

  /** The colour loop of `runAudit`: every hit whose colour is not allowed, in
      order. */
  method CollectHardcoded(hits: seq<ColorHit>) returns (found: seq<ColorHit>)
    ensures found == Hardcoded(hits)
  {
    found := [];
    var i := 0;
    while i < |hits|
      invariant 0 <= i <= |hits|
      invariant found == Hardcoded(hits[..i])
    {
      if !Allowed(hits[i].color) {
        found := found + [hits[i]];
      }
      assert found == Hardcoded(hits[..i]) + Kept(hits[i]);
      HardcodedAppend(hits[..i], hits[i]);
      assert hits[..i + 1] == hits[..i] + [hits[i]];
      i := i + 1;
    }
    assert hits[..i] == hits;
  }

  lemma {:induction false} HardcodedAppend(hits: seq<ColorHit>, h: ColorHit)
    ensures Hardcoded(hits + [h]) == Hardcoded(hits) + Kept(h)
  {
    if hits == [] {
      assert hits + [h] == [h];
      assert [h][1..] == [];
    } else {
      var all := hits + [h];
      assert all[0] == hits[0];
      assert all[1..] == hits[1..] + [h];
      HardcodedAppend(hits[1..], h);
      var first, tail := Kept(hits[0]), Hardcoded(hits[1..]);
      assert Hardcoded(all) == first + (tail + Kept(h));
      assert first + (tail + Kept(h)) == (first + tail) + Kept(h);
    }
  }
}
