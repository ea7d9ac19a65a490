/** The format dispatch of `extract_text_from_file` (pdf_handler.py): the
    lower-cased path's suffix picks the extractor; any other suffix is a
    `ValueError`. The extractors themselves (PDF, DOCX and plain-text
    readers) are outside the model. */
module Extraction {
  import opened Wrappers
  import opened PyStrings

  datatype Format = Pdf | Docx | Txt

  const UNSUPPORTED_FORMAT: string := "❌ Поддерживаются только PDF, DOCX и TXT файлы."

  function Suffix(f: Format): string {
    match f
    case Pdf => ".pdf"
    case Docx => ".docx"
    case Txt => ".txt"
  }

  /** Which extractor `extract_text_from_file(path)` runs, or the
      `ValueError` message it raises. */
  function ExtractFormat(path: string): (r: Result<Format>)
    ensures r.Ok? ==> EndsWith(Lower(path), Suffix(r.value))
    ensures r.Err? ==> r.message == UNSUPPORTED_FORMAT
  {
    var lower := Lower(path);
    if EndsWith(lower, ".pdf") then Ok(Pdf)
    else if EndsWith(lower, ".docx") then Ok(Docx)
    else if EndsWith(lower, ".txt") then Ok(Txt)
    else Err(UNSUPPORTED_FORMAT)
  }

  /** One of the three recognised suffixes ends `s`. */
  predicate HasKnownSuffix(s: string) {
    EndsWith(s, ".pdf") || EndsWith(s, ".docx") || EndsWith(s, ".txt")
  }

  /** The three suffixes exclude each other: a string ends with at most
      one of them. */
  lemma SuffixesExclusive(s: string, f: Format, g: Format)
    requires EndsWith(s, Suffix(f)) && EndsWith(s, Suffix(g))
    ensures f == g
  {
    var a := Suffix(f);
    var b := Suffix(g);
    assert s[|s| - 1] == a[|a| - 1];
    assert s[|s| - 1] == b[|b| - 1];
  }

  /** A path is accepted exactly when its lower-cased form ends with a
      recognised suffix, and then the format is the one that suffix names,
      whatever the order of the checks. */
  lemma ExtractFormatBySuffix(path: string, f: Format)
    ensures ExtractFormat(path).Ok? <==> HasKnownSuffix(Lower(path))
    ensures EndsWith(Lower(path), Suffix(f)) <==> ExtractFormat(path) == Ok(f)
  {
    var r := ExtractFormat(path);
    if EndsWith(Lower(path), Suffix(f)) {
      SuffixesExclusive(Lower(path), f, r.value);
    }
  }

  lemma LowerCharIdempotent(c: char)
    ensures LowerChar(LowerChar(c)) == LowerChar(c)
  {
  }

  /** Lower-casing twice is lower-casing once. */
  lemma LowerIdempotent(s: string)
    ensures Lower(Lower(s)) == Lower(s)
  {
    forall k | 0 <= k < |s| ensures Lower(Lower(s))[k] == Lower(s)[k] {
      LowerCharIdempotent(s[k]);
    }
  }

  /** The dispatch does not depend on letter case. */
  lemma ExtractFormatIgnoresCase(path: string)
    ensures ExtractFormat(Lower(path)) == ExtractFormat(path)
  {
    LowerIdempotent(path);
  }

  /** `os.path.join("./data", f"{file_id}_{original_filename}")`, the path
      `save_file` writes a document under. */
  function StoredPath(fileId: string, name: string): (p: string)
    ensures EndsWith(p, "_" + name)
  {
    var p := "./data/" + fileId + "_" + name;
    assert p[|p| - |"_" + name|..] == "_" + name;
    p
  }

  lemma EndsWithConcat(a: string, b: string, suffix: string)
    requires |suffix| <= |b|
    ensures EndsWith(a + b, suffix) <==> EndsWith(b, suffix)
  {
    assert (a + b)[|a + b| - |suffix|..] == b[|b| - |suffix|..];
  }

  /** Putting a prefix ending in `_` before a name changes none of the
      recognised suffixes: the path ends with one exactly when the name
      does. */
  lemma SuffixThroughPrefix(prefix: string, name: string, f: Format)
    requires prefix != [] && prefix[|prefix| - 1] == '_'
    ensures EndsWith(Lower(prefix + name), Suffix(f)) <==> EndsWith(Lower(name), Suffix(f))
  {
    var suf := Suffix(f);
    LowerConcat(prefix, name);
    var lp := Lower(prefix);
    var ln := Lower(name);
    if |suf| <= |ln| {
      EndsWithConcat(lp, ln, suf);
    } else {
      // the suffix would have to cover the `_` that ends the prefix
      assert (lp + ln)[|lp| - 1] == '_';
      assert forall k :: 0 <= k < |suf| ==> suf[k] != '_';
    }
  }
}
