/**
 * The worked examples of the extractor's per-file logic. Most are stated
 * for whole families of names or paths: prefixed and unprefixed document
 * names, a keyword-priority classification and the course of a nested
 * file. The single pass of `replace` is shown on one fixed file name.
 */
module Scenarios {
  import opened PyStr
  import opened Spells

  /** `福利一：黑煞令.docx` is listed as `黑煞令`, and so for any such name. */
  lemma NormalizeWelfarePrefix(name: string)
    requires '.' !in name && Strip(name) == name
    ensures NormalizedName("福利一：" + name + Docx) == name
  {
    var stem := "福利一：" + name;
    assert !Contains(stem, Docx) by {
      if Contains(stem, Docx) {
        ContainsFirstChar(stem, Docx);
      }
    }
    assert NormalizedName(stem + Docx) == Strip(name) by {
      NormalizeDocument(stem);
      StripHeadPrefix("福利一：", name, Prefixes);
    }
  }

  /** `五鬼运财法.docx` is listed as `五鬼运财法`, and so for any such name. */
  lemma NormalizeWithoutPrefix(name: string)
    requires '.' !in name && Strip(name) == name
    requires name != [] && name[0] !in PrefixInitials
    ensures NormalizedName(name + Docx) == name
  {
    assert !Contains(name, Docx) by {
      if Contains(name, Docx) {
        ContainsFirstChar(name, Docx);
      }
    }
    NormalizeDocument(name);
    NoRecognisedPrefix(name);
  }

  /**
   * `replace` makes a single pass: deleting the inner `.docx` of
   * `.do.docxcx` joins the text around it into a new `.docx`.
   */
  lemma ReplaceIsSinglePass()
    ensures DeleteAll(".do.docxcx", Docx) == Docx
  {
    var s := ".do.docxcx";
    assert !StartsWith(s, Docx) by { assert s[3] != 'c'; }
    assert !StartsWith(s[1..], Docx) by { assert s[1] != '.'; }
    assert !StartsWith(s[2..], Docx) by { assert s[2] != '.'; }
    assert StartsWith(s[3..], Docx);
    assert s[8..] == "cx";
  }

  /**
   * So a normalised name can still be `.docx` itself: any file name that
   * `replace` turns into `.docx`, such as `.do.docxcx`, is listed as `.docx`.
   */
  lemma NormalizeCanKeepDocx(filename: string)
    requires DeleteAll(filename, Docx) == Docx
    ensures NormalizedName(filename) == Docx
  {
    NormalizePlainName(filename);
  }

  /**
   * A name such as `黑煞令`, which no wealth, thunder or blessing keyword
   * matches, is an exorcism spell through its `煞`.
   */
  lemma ExorcismAfterFirstThree(name: string)
    requires !AnyIn(WealthKeywords, name) && !AnyIn(ThunderKeywords, name) && !AnyIn(BlessingKeywords, name)
    requires Contains(name, "煞")
    ensures Categorize(name) == CatExorcism
  {
    assert "煞" in ExorcismKeywords;
    AnyInIsAny(ExorcismKeywords, name);
  }

  /**
   * `雷法课程/闪电咒.docx` belongs to the course `雷法课程`: a file below a
   * top-level directory takes that directory's name as its course, however
   * deep it sits.
   */
  lemma CourseOfNestedFile(dir: string, rest: string)
    requires '/' !in dir
    ensures Course(dir + "/" + rest) == dir
  {
    var rel := dir + "/" + rest;
    assert rel[|dir|] == '/';
    CourseIsFirstSegment(rel);
    FirstFieldOfPrefix(rel, |dir|);
    assert rel[..|dir|] == dir;
    assert FirstField(dir) == dir by { FirstFieldNoSlash(dir); }
  }
}
