/**
 * The per-file logic of the spell catalog extractor: turning a document's
 * file name into a spell name, classifying the name by keyword rules, and
 * the category-driven price, effects and difficulty tables, plus the
 * course label taken from the file's path below the scan root.
 */
module Spells {
  import opened PyStr

  // ---------------------------------------------------------------------
  // Name normalisation
  // ---------------------------------------------------------------------

  /** The document extension deleted from file names. */
  const Docx: string := ".docx"

  /** The recognised name prefixes, tried in this order; the first match wins. */
  const Prefixes: seq<string> := [
    "福利一：", "福利二：", "福利三：", "福利四：", "福利五：", "福利六：", "福利七：",
    "福利：", "小福利：", "特别福利", "端午福利：", "01、", "02、", "03、", "04、", "05、", "06、"
  ]

  /** Removes the first prefix of `ps`, in list order, that `s` starts with. */
  function StripFirstPrefix(s: string, ps: seq<string>): string
  {
    if ps == [] then s
    else if StartsWith(s, ps[0]) then s[|ps[0]|..]
    else StripFirstPrefix(s, ps[1..])
  }

  /**
   * At most one prefix is removed, and it is the first one in list order
   * that `s` starts with; when none matches, `s` is returned unchanged.
   */
  lemma {:induction false} StripFirstPrefixSpec(s: string, ps: seq<string>)
    ensures (forall i :: 0 <= i < |ps| ==> !StartsWith(s, ps[i])) ==> StripFirstPrefix(s, ps) == s
    ensures forall i :: 0 <= i < |ps| && StartsWith(s, ps[i]) && (forall j :: 0 <= j < i ==> !StartsWith(s, ps[j])) ==>
      StripFirstPrefix(s, ps) == s[|ps[i]|..]
  {
    if ps != [] && !StartsWith(s, ps[0]) {
      var rest := ps[1..];
      StripFirstPrefixSpec(s, rest);
      forall i | 1 <= i < |ps|
        ensures rest[i - 1] == ps[i]
      {
      }
    }
  }

  /** A name that starts with the first prefix of the list loses exactly that prefix. */
  lemma StripHeadPrefix(p: string, name: string, ps: seq<string>)
    requires ps != [] && ps[0] == p
    ensures StripFirstPrefix(p + name, ps) == name
  {
    assert StartsWith(p + name, p);
    assert (p + name)[|p|..] == name;
  }

  /** The spell name the extractor derives from a file name. */
  function NormalizedName(filename: string): string
  {
    Strip(StripFirstPrefix(DeleteAll(filename, Docx), Prefixes))
  }

  /**
   * The prefix loop: tries the prefixes of `ps` in order and removes the
   * first one `s` starts with, then stops.
   */
  method RemoveFirstPrefix(s: string, ps: seq<string>) returns (name: string)
    ensures name == StripFirstPrefix(s, ps)
  {
    name := s;
    var i := 0;
    while i < |ps|
      invariant 0 <= i <= |ps|
      invariant name == s
      invariant StripFirstPrefix(s, ps[i..]) == StripFirstPrefix(s, ps)
    {
      if StartsWith(name, ps[i]) {
        name := name[|ps[i]|..];
        break;
      }
      assert ps[i..][1..] == ps[i + 1..];
      i := i + 1;
    }
  }

  /**
   * Deletes every `.docx`, then removes the first matching prefix,
   * then strips surrounding whitespace.
   */
  method ExtractSpellInfoFromFilename(filename: string) returns (name: string)
    ensures name == NormalizedName(filename)
    ensures name != [] ==> !IsSpace(name[0]) && !IsSpace(name[|name| - 1])
  {
    name := DeleteAll(filename, Docx);
    name := RemoveFirstPrefix(name, Prefixes);
    name := Strip(name);
  }

  /** A `.docx` extension at the end of a name free of `.docx` is removed. */
  lemma DocxSuffixDeleted(stem: string)
    requires !Contains(stem, Docx)
    ensures DeleteAll(stem + Docx, Docx) == stem
  {
    assert Docx[1..] == "docx";
    DeleteAppended(stem, Docx);
  }

  /** For a document name `stem + ".docx"`, normalising works on `stem` alone. */
  lemma NormalizeDocument(stem: string)
    requires !Contains(stem, Docx)
    ensures NormalizedName(stem + Docx) == Strip(StripFirstPrefix(stem, Prefixes))
  {
    DocxSuffixDeleted(stem);
  }

  /** The characters the recognised prefixes start with. */
  const PrefixInitials: set<char> := {'福', '小', '特', '端', '0'}

  lemma PrefixesStartWithInitials()
    ensures forall i :: 0 <= i < |Prefixes| ==> |Prefixes[i]| > 0 && Prefixes[i][0] in PrefixInitials
  {
  }

  /** A name whose first character starts no prefix keeps all of its text. */
  lemma NoRecognisedPrefix(name: string)
    requires name != [] && name[0] !in PrefixInitials
    ensures StripFirstPrefix(name, Prefixes) == name
  {
    PrefixesStartWithInitials();
    assert forall i :: 0 <= i < |Prefixes| ==> !StartsWith(name, Prefixes[i]);
    StripFirstPrefixSpec(name, Prefixes);
  }

  /**
   * When deleting `.docx` leaves a name that starts no prefix and has no
   * surrounding whitespace, that name is the spell name.
   */
  lemma NormalizePlainName(filename: string)
    requires DeleteAll(filename, Docx) != []
    requires DeleteAll(filename, Docx)[0] !in PrefixInitials
    requires !IsSpace(DeleteAll(filename, Docx)[0])
    requires !IsSpace(DeleteAll(filename, Docx)[|DeleteAll(filename, Docx)| - 1])
    ensures NormalizedName(filename) == DeleteAll(filename, Docx)
  {
    NoRecognisedPrefix(DeleteAll(filename, Docx));
  }

  // ---------------------------------------------------------------------
  // Classification
  // ---------------------------------------------------------------------

  const CatWealth: string := "财运"
  const CatThunder: string := "雷法"
  const CatBlessing: string := "祈福"
  const CatExorcism: string := "驱邪"
  const CatProtection: string := "护身"
  const CatFiveElements: string := "五行"
  const CatStars: string := "星斗"
  const CatSorcery: string := "巫术"
  const CatGeneral: string := "综合"
  /** Listed by the difficulty rule, but produced by no classification rule. */
  const CatForbidden: string := "禁法"

  /** The nine labels the classifier can return, the fallback last. */
  const Labels: seq<string> := [
    CatWealth, CatThunder, CatBlessing, CatExorcism, CatProtection,
    CatFiveElements, CatStars, CatSorcery, CatGeneral
  ]

  const WealthKeywords: seq<string> := ["财", "金", "银", "运", "富", "进库", "地库", "招财"]
  const ThunderKeywords: seq<string> := ["雷", "电", "霆", "震"]
  const BlessingKeywords: seq<string> := ["福", "祈", "祝", "祭", "愿", "祷", "福旺", "新春"]
  const ExorcismKeywords: seq<string> := ["禁", "驱", "除", "破", "收", "煞", "鬼", "邪", "退", "镇"]
  const ProtectionKeywords: seq<string> := ["护", "身", "挡", "封", "解", "赦", "压"]
  const FiveElementsKeywords: seq<string> := ["五行", "八卦", "阴阳", "水", "火", "木", "金", "土"]
  const StarsKeywords: seq<string> := ["斗", "星", "北斗", "南斗"]
  const SorceryKeyword: string := "巫"

  /** `any(k in name for k in keywords)`, scanning the keywords in order. */
  predicate AnyIn(keywords: seq<string>, name: string)
  {
    keywords != [] && (Contains(name, keywords[0]) || AnyIn(keywords[1..], name))
  }

  /** The scan finds a keyword exactly when some keyword of the list occurs in the name. */
  lemma {:induction false} AnyInIsAny(keywords: seq<string>, name: string)
    ensures AnyIn(keywords, name) <==> exists k :: k in keywords && Contains(name, k)
  {
    if keywords != [] {
      AnyInIsAny(keywords[1..], name);
      assert keywords == [keywords[0]] + keywords[1..];
    }
  }

  /** One classification rule: a category and the keywords that select it. */
  datatype Rule = Rule(category: string, keywords: seq<string>)

  /** The classification rules in priority order. */
  const Rules: seq<Rule> := [
    Rule(CatWealth, WealthKeywords),
    Rule(CatThunder, ThunderKeywords),
    Rule(CatBlessing, BlessingKeywords),
    Rule(CatExorcism, ExorcismKeywords),
    Rule(CatProtection, ProtectionKeywords),
    Rule(CatFiveElements, FiveElementsKeywords),
    Rule(CatStars, StarsKeywords),
    Rule(CatSorcery, [SorceryKeyword])
  ]

  /** Rule `i` has a keyword in `name` and no earlier rule does. */
  predicate FirstMatchingRule(name: string, i: int)
    requires 0 <= i < |Rules|
  {
    AnyIn(Rules[i].keywords, name) && forall j :: 0 <= j < i ==> !AnyIn(Rules[j].keywords, name)
  }

  /** The category of a spell name: the first rule with a keyword in the name wins. */
  function Categorize(name: string): (r: string)
    ensures r in Labels
  {
    if AnyIn(WealthKeywords, name) then CatWealth
    else if AnyIn(ThunderKeywords, name) then CatThunder
    else if AnyIn(BlessingKeywords, name) then CatBlessing
    else if AnyIn(ExorcismKeywords, name) then CatExorcism
    else if AnyIn(ProtectionKeywords, name) then CatProtection
    else if AnyIn(FiveElementsKeywords, name) then CatFiveElements
    else if AnyIn(StarsKeywords, name) then CatStars
    else if Contains(name, SorceryKeyword) then CatSorcery
    else CatGeneral
  }

  /**
   * The category is the label of the first rule of `Rules` that has a
   * keyword in the name, and the fallback when no rule has one.
   */
  lemma CategorizeFirstMatch(name: string)
    ensures forall i :: 0 <= i < |Rules| && FirstMatchingRule(name, i) ==> Categorize(name) == Rules[i].category
    ensures (forall i :: 0 <= i < |Rules| ==> !AnyIn(Rules[i].keywords, name)) ==> Categorize(name) == CatGeneral
  {
    assert AnyIn([SorceryKeyword], name) <==> Contains(name, SorceryKeyword) by {
      assert [SorceryKeyword][1..] == [];
    }
    assert Rules[0].keywords == WealthKeywords && Rules[1].keywords == ThunderKeywords;
    assert Rules[2].keywords == BlessingKeywords && Rules[3].keywords == ExorcismKeywords;
    assert Rules[4].keywords == ProtectionKeywords && Rules[5].keywords == FiveElementsKeywords;
    assert Rules[6].keywords == StarsKeywords && Rules[7].keywords == [SorceryKeyword];
  }

  /** Rule priority decides overlaps: a name with both `财` and `雷` is a wealth spell. */
  lemma WealthBeforeThunder(name: string)
    requires Contains(name, "财") && Contains(name, "雷")
    ensures Categorize(name) == CatWealth
  {
    assert "财" in WealthKeywords;
    AnyInIsAny(WealthKeywords, name);
  }

  /**
   * `金` is a keyword of both the wealth and the five-elements rule; the
   * wealth rule comes first, so a name with `金` is never five-elements.
   */
  lemma GoldIsNeverFiveElements(name: string)
    requires Contains(name, "金")
    ensures Categorize(name) == CatWealth && Categorize(name) != CatFiveElements
  {
    assert "金" in WealthKeywords;
    AnyInIsAny(WealthKeywords, name);
  }

  // ---------------------------------------------------------------------
  // Derived attributes
  // ---------------------------------------------------------------------

  /** The price table; categories outside it cost `DefaultPrice`. */
  const PriceTable: map<string, int> := map[
    CatWealth := 888, CatThunder := 1288, CatBlessing := 666, CatExorcism := 999,
    CatProtection := 777, CatFiveElements := 888, CatStars := 999, CatSorcery := 666,
    CatGeneral := 666
  ]
  const DefaultPrice: int := 666

  /** `prices.get(category, 666)` */
  function DeterminePrice(category: string): (r: int)
    ensures r > 0
    ensures category !in Labels ==> r == DefaultPrice
    ensures r in {666, 777, 888, 999, 1288}
  {
    if category in PriceTable then PriceTable[category] else DefaultPrice
  }

  /** The priced categories are exactly the nine labels. */
  lemma PriceTableCoversLabels()
    ensures PriceTable.Keys == set l | l in Labels
  {
  }

  /** The price of each label, as listed in the table. */
  lemma PricesByCategory()
    ensures DeterminePrice(CatWealth) == 888 && DeterminePrice(CatThunder) == 1288
    ensures DeterminePrice(CatBlessing) == 666 && DeterminePrice(CatExorcism) == 999
    ensures DeterminePrice(CatProtection) == 777 && DeterminePrice(CatFiveElements) == 888
    ensures DeterminePrice(CatStars) == 999 && DeterminePrice(CatSorcery) == 666
    ensures DeterminePrice(CatGeneral) == 666
  {
  }

  /** The effects table; every entry lists four effects. */
  const EffectsTable: map<string, seq<string>> := map[
    CatWealth := ["招财进宝", "开库纳财", "五鬼运财", "生意兴隆"],
    CatThunder := ["驱邪镇煞", "护身辟邪", "治病消灾", "斩妖除魔"],
    CatBlessing := ["祈福纳祥", "增运旺宅", "平安顺遂", "心想事成"],
    CatExorcism := ["驱邪避凶", "镇宅安神", "化解煞气", "清除晦气"],
    CatProtection := ["护身保命", "化解灾难", "逢凶化吉", "平安吉祥"],
    CatFiveElements := ["调和五行", "平衡阴阳", "改善运势", "趋吉避凶"],
    CatStars := ["星宿护佑", "改运转运", "化解灾厄", "增福延寿"],
    CatSorcery := ["通灵问事", "化解疑难", "增强灵力", "通达天地"],
    CatGeneral := ["综合功效", "多效合一", "平衡调理", "趋福避祸"]
  ]

  /** `effects.get(category, effects['综合'])` */
  function GetEffectsByCategory(category: string): (r: seq<string>)
    ensures |r| == 4
    ensures category in Labels ==> r == EffectsTable[category]
    ensures category !in Labels ==> r == EffectsTable[CatGeneral]
  {
    if category in EffectsTable then EffectsTable[category] else EffectsTable[CatGeneral]
  }

  const Intermediate: string := "中级"
  const Beginner: string := "初级"

  /** `"中级" if category in ['雷法', '禁法'] else "初级"` */
  function Difficulty(category: string): (r: string)
    ensures r == Intermediate || r == Beginner
    ensures r == Intermediate <==> category == CatThunder || category == CatForbidden
  {
    if category in [CatThunder, CatForbidden] then Intermediate else Beginner
  }

  /**
   * Only the thunder-rite category is ever intermediate for a classified
   * name: the other listed label is never produced by the classifier.
   */
  lemma ClassifiedDifficulty(name: string)
    ensures Categorize(name) != CatForbidden
    ensures Difficulty(Categorize(name)) == Intermediate <==> Categorize(name) == CatThunder
  {
  }

  // ---------------------------------------------------------------------
  // Course and description
  // ---------------------------------------------------------------------

  const OtherCourse: string := "其他"

  /** `s.split('/')[0]`: everything before the first `/`. */
  function FirstField(s: string): (r: string)
    ensures |r| <= |s| && r == s[..|r|]
    ensures '/' !in r
    ensures |r| < |s| ==> s[|r|] == '/'
  {
    if s == [] || s[0] == '/' then [] else [s[0]] + FirstField(s[1..])
  }

  /** The text of the parent of a relative path that contains `/`: everything before the last `/`. */
  function ParentDir(rel: string): (r: string)
    requires '/' in rel
    ensures |r| < |rel| && r == rel[..|r|] && rel[|r|] == '/'
    ensures '/' !in rel[|r| + 1..]
  {
    if rel[|rel| - 1] == '/' then rel[..|rel| - 1]
    else
      assert '/' in rel[..|rel| - 1] by {
        var i :| 0 <= i < |rel| && rel[i] == '/';
        assert rel[..|rel| - 1][i] == '/';
      }
      var r := ParentDir(rel[..|rel| - 1]);
      assert rel[|r| + 1..] == rel[..|rel| - 1][|r| + 1..] + [rel[|rel| - 1]];
      r
  }

  /** The course a file belongs to, from its path relative to the scan root. */
  function Course(rel: string): string
  {
    if Contains(rel, "/") then FirstField(ParentDir(assert '/' in rel by { ContainsChar(rel, '/'); } rel))
    else OtherCourse
  }

  /**
   * A string without `/` is its own first field: a corollary of the
   * contract of `FirstField`.
   */
  lemma FirstFieldNoSlash(s: string)
    requires '/' !in s
    ensures FirstField(s) == s
  {
  }

  /**
   * Cutting `s` at any `/` keeps its first field: a corollary of the
   * contract of `FirstField`.
   */
  lemma FirstFieldOfPrefix(s: string, j: int)
    requires 0 <= j < |s| && s[j] == '/'
    ensures FirstField(s[..j]) == FirstField(s)
  {
    var r := FirstField(s);
    var q := FirstField(s[..j]);
    assert forall k :: 0 <= k < |r| ==> s[k] == r[k];
    assert forall k :: 0 <= k < |q| ==> s[k] == q[k];
    assert |q| < j ==> s[|q|] == '/';
    assert |q| == |r|;
  }

  /**
   * The course is the first `/`-separated segment of the relative path when
   * the path has a `/`, and `其他` when the file sits directly under the root.
   */
  lemma CourseIsFirstSegment(rel: string)
    ensures '/' in rel ==> Course(rel) == FirstField(rel)
    ensures '/' !in rel ==> Course(rel) == OtherCourse
  {
    ContainsChar(rel, '/');
    if '/' in rel {
      FirstFieldOfPrefix(rel, |ParentDir(rel)|);
    }
  }

  /** `f"{name}，源自{course}，属于{category}类秘法。"` */
  function Description(name: string, course: string, category: string): string
  {
    name + "，源自" + course + "，属于" + category + "类秘法。"
  }

  /** The description opens with the name and names the course and the category in their places. */
  lemma DescriptionFields(name: string, course: string, category: string)
    ensures var d := Description(name, course, category);
      && |d| == |name| + |course| + |category| + 10
      && d[..|name|] == name
      && d[|name| + 3..|name| + 3 + |course|] == course
      && d[|d| - 4 - |category|..|d| - 4] == category
  {
    var d := Description(name, course, category);
    var k := |name| + 3 + |course| + 3;
    assert d == name + "，源自" + course + "，属于" + category + "类秘法。";
    assert d[k..k + |category|] == category;
  }
}
