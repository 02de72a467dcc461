/**
  The extension dispatch of `extractContent`: the text after the last '.'
  of the path, lower-cased, selects the extractor. Reading the file and
  parsing PDF or DOCX content are outside the model; the result names the
  extractor chosen or the error thrown.
 */
module FileContentExtractor {

  datatype Extraction = Txt | Pdf | Docx | InvalidExtension | Unsupported

  /** `e` is the piece of `s` after its last `sep`, or all of `s` when it
      has none. */
  predicate IsFinalSegment(s: string, sep: char, e: string) {
    && |e| <= |s|
    && e == s[|s| - |e|..]
    && sep !in e
    && (|e| == |s| || s[|s| - |e| - 1] == sep)
  }

  /** A final segment of the tail is one of the whole string too, unless it
      is the whole tail and the first character is not a separator. */
  lemma {:induction false} FinalSegmentOfTail(s: string, sep: char, e: string)
    requires s != [] && IsFinalSegment(s[1..], sep, e)
    requires s[0] == sep || |e| < |s| - 1
    ensures IsFinalSegment(s, sep, e)
  {
    assert s[1..][|s| - 1 - |e|..] == s[|s| - |e|..];
  }

  /** `s.split(sep)`: the pieces between separators; never empty. */
  function Split(s: string, sep: char): (parts: seq<string>)
    ensures |parts| >= 1
    ensures IsFinalSegment(s, sep, parts[|parts| - 1])
  {
    if s == [] then [[]]
    else
      var rest := Split(s[1..], sep);
      if s[0] == sep then
        FinalSegmentOfTail(s, sep, rest[|rest| - 1]);
        [[]] + rest
      else if |rest| == 1 then
        assert [s[0]] + rest[0] == s;
        [[s[0]] + rest[0]]
      else
        var last := rest[|rest| - 1];
        FinalSegmentOfTail(s, sep, last);
        [[s[0]] + rest[0]] + rest[1..]
  }

  /** No piece of a split contains the separator. */
  lemma {:induction false} SplitPiecesLackSep(s: string, sep: char)
    ensures forall i :: 0 <= i < |Split(s, sep)| ==> sep !in Split(s, sep)[i]
  {
    if s != [] {
      SplitPiecesLackSep(s[1..], sep);
      var rest := Split(s[1..], sep);
      if s[0] == sep {
        assert Split(s, sep) == [[]] + rest;
      } else {
        var parts := [[s[0]] + rest[0]] + rest[1..];
        assert Split(s, sep) == parts;
        forall i | 0 <= i < |parts|
          ensures sep !in parts[i]
        {
          if i > 0 {
            assert parts[i] == rest[i];
          }
        }
      }
    }
  }

  /** `parts.join(sep)`. */
  function Join(parts: seq<string>, sep: char): string
    requires |parts| >= 1
  {
    if |parts| == 1 then parts[0] else parts[0] + [sep] + Join(parts[1..], sep)
  }

  lemma {:induction false} JoinCons(head: string, rest: seq<string>, sep: char)
    requires |rest| >= 1
    ensures Join([head] + rest, sep) == head + [sep] + Join(rest, sep)
  {
    assert ([head] + rest)[1..] == rest;
  }

  /** Splitting loses nothing: joining the pieces restores the string. */
  lemma {:induction false} JoinSplit(s: string, sep: char)
    ensures Join(Split(s, sep), sep) == s
  {
    if s != [] {
      JoinSplit(s[1..], sep);
      if s[0] == sep {
        JoinSplitAtSep(s, sep);
      } else {
        JoinSplitGlued(s, sep);
      }
    }
  }

  /** A leading separator opens an empty first piece. */
  lemma {:induction false} JoinSplitAtSep(s: string, sep: char)
    requires s != [] && s[0] == sep
    requires Join(Split(s[1..], sep), sep) == s[1..]
    ensures Join(Split(s, sep), sep) == s
  {
    var rest := Split(s[1..], sep);
    assert Split(s, sep) == [[]] + rest;
    JoinCons([], rest, sep);
  }

  /** Any other first character is glued onto the tail's first piece. */
  lemma {:induction false} JoinSplitGlued(s: string, sep: char)
    requires s != [] && s[0] != sep
    requires Join(Split(s[1..], sep), sep) == s[1..]
    ensures Join(Split(s, sep), sep) == s
  {
    var rest := Split(s[1..], sep);
    if |rest| > 1 {
      var head := [s[0]] + rest[0];
      assert Split(s, sep) == [head] + rest[1..];
      JoinCons(head, rest[1..], sep);
      JoinCons(rest[0], rest[1..], sep);
      assert [rest[0]] + rest[1..] == rest;
    }
  }

  /** The final segment is empty exactly when the string is empty or ends
      with the separator. */
  lemma {:induction false} EmptyFinalSegment(s: string, sep: char, e: string)
    requires IsFinalSegment(s, sep, e)
    ensures e == [] <==> s == [] || s[|s| - 1] == sep
  {
    if e != [] && s != [] {
      assert e[|e| - 1] == s[|s| - 1];
    }
  }

  /** At most one piece of a string is its final segment. */
  lemma {:induction false} FinalSegmentUnique(s: string, sep: char, e1: string, e2: string)
    requires IsFinalSegment(s, sep, e1) && IsFinalSegment(s, sep, e2)
    ensures e1 == e2
  {
  }

  function AsciiLower(c: char): char {
    if 'A' <= c <= 'Z' then (c as int + 32) as char else c
  }

  /** `toLowerCase`, on the ASCII letters. */
  function ToLower(s: string): (r: string)
    ensures |r| == |s|
    ensures forall i :: 0 <= i < |s| ==> r[i] == AsciiLower(s[i])
  {
    seq(|s|, i requires 0 <= i < |s| => AsciiLower(s[i]))
  }

  /** `filePath.split('.').pop()`: the text after the last '.'. */
  function FinalSegment(path: string): (e: string)
    ensures IsFinalSegment(path, '.', e)
  {
    var parts := Split(path, '.');
    parts[|parts| - 1]
  }

  /** `filePath.split('.').pop()?.toLowerCase()`. `split` never returns an
      empty array, so `pop` always yields a string. */
  function Extension(path: string): (r: string)
    ensures exists e :: IsFinalSegment(path, '.', e) && r == ToLower(e)
    ensures forall e :: IsFinalSegment(path, '.', e) ==> r == ToLower(e)
  {
    ToLower(FinalSegment(path))
  }

  /** The `switch` on the extension, the empty one included. */
  function Classify(ext: string): (r: Extraction)
    ensures r == InvalidExtension <==> ext == []
    ensures r == Txt <==> ext == "txt"
    ensures r == Pdf <==> ext == "pdf"
    ensures r == Docx <==> ext == "docx"
    ensures r == Unsupported <==> ext != [] && ext !in ["txt", "pdf", "docx"]
  {
    if ext == [] then InvalidExtension
    else if ext == "txt" then Txt
    else if ext == "pdf" then Pdf
    else if ext == "docx" then Docx
    else Unsupported
  }

  /** `extractContent`'s choice of extractor, or the error it throws. */
  function ExtractContent(path: string): (r: Extraction)
    ensures r == InvalidExtension <==> path == [] || path[|path| - 1] == '.'
  {
    EmptyFinalSegment(path, '.', FinalSegment(path));
    Classify(Extension(path))
  }

  /** Only the final segment decides: whatever precedes the last '.' does not
      matter. */
  lemma {:induction false} OnlyFinalSegmentMatters(prefix: string, ext: string)
    requires '.' !in ext
    ensures FinalSegment(prefix + "." + ext) == ext
    ensures ExtractContent(prefix + "." + ext) == ExtractContent(ext)
  {
    var path := prefix + "." + ext;
    assert path[|path| - |ext|..] == ext;
    assert path[|path| - |ext| - 1] == '.';
    FinalSegmentUnique(path, '.', ext, FinalSegment(path));
    assert FinalSegment(ext) == ext;
  }

  lemma {:induction false} AsciiLowerIdempotent(s: string)
    ensures ToLower(ToLower(s)) == ToLower(s)
  {
  }

  /** Lower-casing commutes with taking the final segment, since '.' is not
      a letter. */
  lemma {:induction false} FinalSegmentOfLower(path: string)
    ensures FinalSegment(ToLower(path)) == ToLower(FinalSegment(path))
  {
    var lower := ToLower(path);
    var e := FinalSegment(path);
    var le := ToLower(e);
    assert lower[|lower| - |le|..] == le;
    assert '.' !in le by {
      forall i | 0 <= i < |le|
        ensures le[i] != '.'
      {
        assert e[i] != '.';
      }
    }
    FinalSegmentUnique(lower, '.', le, FinalSegment(lower));
  }

  /** The dispatch ignores letter case: a path and its lower-cased form go to
      the same extractor. */
  lemma {:induction false} CaseInsensitive(path: string)
    ensures Extension(ToLower(path)) == Extension(path)
    ensures ExtractContent(ToLower(path)) == ExtractContent(path)
  {
    FinalSegmentOfLower(path);
    AsciiLowerIdempotent(FinalSegment(path));
  }

  /** A path whose extension is `ext` goes where `ext` says. */
  lemma {:induction false} ClassifiedBy(path: string, ext: string)
    requires Extension(path) == ext
    ensures ExtractContent(path) == Classify(ext)
  {
  }

  lemma {:induction false} ExtensionAfterDot(prefix: string, ext: string)
    requires '.' !in ext
    ensures Extension(prefix + "." + ext) == ToLower(ext)
  {
    OnlyFinalSegmentMatters(prefix, ext);
  }

  /** A path without any '.' is its own extension. */
  lemma {:induction false} WholePathIsExtension(path: string)
    requires '.' !in path
    ensures ExtractContent(path) == Classify(ToLower(path))
  {
    FinalSegmentUnique(path, '.', path, FinalSegment(path));
  }

  /** Worked cases of the dispatch. */
  lemma {:induction false} NestedExtension()
    ensures ExtractContent("a.pdf.txt") == Txt
  {
    var prefix, ext := "a.pdf", "txt";
    assert prefix + "." + ext == "a.pdf.txt";
    assert '.' !in ext;
    assert ToLower(ext) == ext;
    ExtensionAfterDot(prefix, ext);
    ClassifiedBy(prefix + "." + ext, ext);
  }

  lemma {:induction false} UpperCaseExtension()
    ensures ExtractContent("X.PDF") == Pdf
  {
    var prefix, ext := "X", "PDF";
    assert prefix + "." + ext == "X.PDF";
    assert '.' !in ext;
    assert ToLower(ext) == "pdf";
    ExtensionAfterDot(prefix, ext);
    ClassifiedBy(prefix + "." + ext, "pdf");
  }

  lemma {:induction false} NoDotUnsupported()
    ensures ExtractContent("notes") == Unsupported
  {
    var p := "notes";
    assert '.' !in p;
    assert ToLower(p) == p;
    WholePathIsExtension(p);
  }

  lemma {:induction false} NoDotKnownFormat()
    ensures ExtractContent("pdf") == Pdf
  {
    var p := "pdf";
    assert '.' !in p;
    assert ToLower(p) == p;
    WholePathIsExtension(p);
  }

  lemma {:induction false} EmptyExtension()
    ensures ExtractContent("report.") == InvalidExtension
    ensures ExtractContent("") == InvalidExtension
  {
  }
}
