/** Topic categorisation of question text (client/src/lib/quiz-utils.ts). */
module QuizUtils {
  import opened Wrappers
  import opened Text

  /** The nine topics of the keyword table. */
  datatype Topic =
    | Hardware
    | OperatingSystems
    | OfficeTools
    | Networking
    | WebProgramming
    | Databases
    | CyberSecurity
    | CloudCommerce
    | DigitalElectronics

  /** The display name of a topic, as the source spells it. */
  function Name(t: Topic): string {
    match t
    case Hardware => "Computer Fundamentals & Hardware"
    case OperatingSystems => "Operating Systems"
    case OfficeTools => "Office Automation Tools"
    case Networking => "Networking & Internet"
    case WebProgramming => "Web Design & Programming"
    case Databases => "Database Management (DBMS)"
    case CyberSecurity => "Cyber Security"
    case CloudCommerce => "Cloud Computing & E-Commerce"
    case DigitalElectronics => "Digital Electronics & Number Systems"
  }

  const HardwareWords: seq<string> := [
    "keyboard", "printer", "monitor", "scanner", "ram", "rom", "memory", "storage",
    "cpu", "alu", "processor", "booting", "bios", "hard disk", "byte"]
  const OperatingSystemWords: seq<string> := [
    "linux", "unix", "windows", "operating system", "kernel", "shell", "file system", "directory"]
  const OfficeWords: seq<string> := [
    "word", "excel", "powerpoint", "spreadsheet", "mail merge", "formula", "pivot table", "slide"]
  const NetworkingWords: seq<string> := [
    "lan", "wan", "network", "router", "switch", "ip address", "protocol", "http", "smtp", "dns"]
  const ProgrammingWords: seq<string> := [
    "html", "css", "javascript", "python", "java", "programming", "variable", "function",
    "loop", "array", "tag"]
  const DatabaseWords: seq<string> := [
    "sql", "database", "table", "select", "insert", "update", "delete", "primary key", "foreign key"]
  const SecurityWords: seq<string> := [
    "virus", "malware", "firewall", "antivirus", "phishing", "encryption", "security"]
  const CloudWords: seq<string> := [
    "cloud", "iaas", "paas", "saas", "e-commerce"]
  const ElectronicsWords: seq<string> := [
    "binary", "hexadecimal", "logic gate", "and gate", "or gate"]

  /** Pairs every word of one group with its topic. */
  function Tagged(words: seq<string>, t: Topic): (r: seq<(string, Topic)>)
    ensures |r| == |words|
    ensures forall i :: 0 <= i < |words| ==> r[i] == (words[i], t)
  {
    seq(|words|, i requires 0 <= i < |words| => (words[i], t))
  }

  /** `TOPIC_KEYWORDS` in the order `Object.entries` visits it: insertion
      order, since no keyword is an array index. */
  const TopicKeywords: seq<(string, Topic)> :=
    Tagged(HardwareWords, Hardware)
    + Tagged(OperatingSystemWords, OperatingSystems)
    + Tagged(OfficeWords, OfficeTools)
    + Tagged(NetworkingWords, Networking)
    + Tagged(ProgrammingWords, WebProgramming)
    + Tagged(DatabaseWords, Databases)
    + Tagged(SecurityWords, CyberSecurity)
    + Tagged(CloudWords, CloudCommerce)
    + Tagged(ElectronicsWords, DigitalElectronics)

  /** The table opens with the fifteen fundamentals keywords. */
  lemma HardwareKeywordsFirst()
    ensures |TopicKeywords| == 78
    ensures forall i :: 0 <= i < 15 ==> TopicKeywords[i] == (HardwareWords[i], Hardware)
  {
    var rest := Tagged(OperatingSystemWords, OperatingSystems)
      + Tagged(OfficeWords, OfficeTools)
      + Tagged(NetworkingWords, Networking)
      + Tagged(ProgrammingWords, WebProgramming)
      + Tagged(DatabaseWords, Databases)
      + Tagged(SecurityWords, CyberSecurity)
      + Tagged(CloudWords, CloudCommerce)
      + Tagged(ElectronicsWords, DigitalElectronics);
    assert TopicKeywords == Tagged(HardwareWords, Hardware) + rest;
  }

  /** 'function' is a keyword, at position 48. */
  lemma FunctionIsAKeyword()
    ensures |TopicKeywords| > 48 && TopicKeywords[48].0 == "function"
  {
    var before := Tagged(HardwareWords, Hardware)
      + Tagged(OperatingSystemWords, OperatingSystems)
      + Tagged(OfficeWords, OfficeTools)
      + Tagged(NetworkingWords, Networking);
    var after := Tagged(DatabaseWords, Databases)
      + Tagged(SecurityWords, CyberSecurity)
      + Tagged(CloudWords, CloudCommerce)
      + Tagged(ElectronicsWords, DigitalElectronics);
    assert TopicKeywords == before + Tagged(ProgrammingWords, WebProgramming) + after;
    assert |before| == 41;
    assert TopicKeywords[48] == Tagged(ProgrammingWords, WebProgramming)[7];
  }

  // ------------------------------------------------------------ tag strip

  /** `s.replace(/<[^>]*>/g, '')`: every `<` that has a `>` somewhere after
      it starts a run that is deleted through the first such `>`; a `<` with
      no later `>` is kept. */
  function StripTags(s: string): string
    decreases |s|
  {
    if s == [] then []
    else if s[0] == '<' && '>' in s[1..] then
      StripTags(s[FirstIndex(s[1..], '>') + 2..])
    else [s[0]] + StripTags(s[1..])
  }

  /** No `<` is followed, anywhere later, by a `>`. */
  predicate NoTagLeft(s: string) {
    forall i, j :: 0 <= i < j < |s| && s[i] == '<' ==> s[j] != '>'
  }

  /** Stripping only deletes characters. */
  lemma {:induction false} StripTagsChars(s: string)
    ensures forall c :: c in StripTags(s) ==> c in s
    decreases |s|
  {
    if s == [] {
    } else if s[0] == '<' && '>' in s[1..] {
      var k := FirstIndex(s[1..], '>');
      StripTagsChars(s[k + 2..]);
      forall c | c in s[k + 2..] ensures c in s {
        var i :| 0 <= i < |s[k + 2..]| && s[k + 2..][i] == c;
        assert s[k + 2 + i] == c;
      }
    } else {
      StripTagsChars(s[1..]);
    }
  }

  /** After stripping, no `<` is followed later by a `>`: the global
      replacement leaves nothing the pattern could still match. */
  lemma {:induction false} StripTagsLeavesNoTag(s: string)
    ensures NoTagLeft(StripTags(s))
    decreases |s|
  {
    if s == [] {
    } else if s[0] == '<' && '>' in s[1..] {
      StripTagsLeavesNoTag(s[FirstIndex(s[1..], '>') + 2..]);
    } else {
      var rest := StripTags(s[1..]);
      StripTagsLeavesNoTag(s[1..]);
      StripTagsChars(s[1..]);
      var r := [s[0]] + rest;
      forall i, j | 0 <= i < j < |r| && r[i] == '<' ensures r[j] != '>' {
        if i == 0 {
          assert r[j] == rest[j - 1];
          assert r[j] in rest;
        } else {
          assert r[i] == rest[i - 1] && r[j] == rest[j - 1];
        }
      }
    }
  }

  lemma FirstIndexLower(t: string)
    requires '>' in t
    ensures '>' in Lower(t) && FirstIndex(Lower(t), '>') == FirstIndex(t, '>')
  {
    var k := FirstIndex(t, '>');
    assert Lower(t)[k] == '>';
    var k' := FirstIndex(Lower(t), '>');
    assert t[k'] == '>';
  }

  lemma LowerSuffix(s: string, i: nat)
    requires i <= |s|
    ensures Lower(s)[i..] == Lower(s[i..])
  {
  }

  lemma LowerCons(c: char, t: string)
    ensures Lower([c] + t) == [LowerChar(c)] + Lower(t)
  {
  }

  /** Lower-casing neither creates nor destroys a tag start, nor moves the
      `>` that ends it. */
  lemma TagStartLower(s: string)
    requires s != []
    ensures (Lower(s)[0] == '<' && '>' in Lower(s)[1..]) <==> (s[0] == '<' && '>' in s[1..])
    ensures '>' in s[1..] ==> '>' in Lower(s)[1..] && FirstIndex(Lower(s)[1..], '>') == FirstIndex(s[1..], '>')
  {
    LowerSuffix(s, 1);
    if '>' in s[1..] {
      FirstIndexLower(s[1..]);
    } else {
      forall i | 0 <= i < |s[1..]| ensures Lower(s[1..])[i] != '>' {
        assert s[1..][i] != '>';
      }
    }
  }

  /** Stripping tags and ASCII lower-casing commute: neither `<` nor `>` is
      a letter. */
  lemma {:induction false} LowerStripCommute(s: string)
    ensures Lower(StripTags(s)) == StripTags(Lower(s))
    decreases |s|
  {
    if s != [] {
      var ls := Lower(s);
      TagStartLower(s);
      if s[0] == '<' && '>' in s[1..] {
        var k := FirstIndex(s[1..], '>');
        LowerSuffix(s, k + 2);
        LowerStripCommute(s[k + 2..]);
        assert StripTags(ls) == StripTags(ls[k + 2..]);
      } else {
        LowerSuffix(s, 1);
        LowerStripCommute(s[1..]);
        LowerCons(s[0], StripTags(s[1..]));
        assert StripTags(ls) == [ls[0]] + StripTags(ls[1..]);
      }
    }
  }

  // --------------------------------------------------------- categorising

  /** The text the keyword search runs on. */
  function CleanText(questionText: string): string {
    Lower(StripTags(questionText))
  }

  /** Index of the first entry of `table`, at position `i` or later, whose
      keyword occurs in `text`. */
  function FirstMatchFrom(table: seq<(string, Topic)>, text: string, i: nat): (r: Option<nat>)
    ensures r.Some? ==> i <= r.value < |table|
    decreases |table| - i
  {
    if i >= |table| then None
    else if Contains(text, table[i].0) then Some(i)
    else FirstMatchFrom(table, text, i + 1)
  }

  /** `categorizeQuestion`: the topic of the first keyword (in table order)
      that occurs in the cleaned text; failing that, a programming topic
      when the text mentions 'function', 'code' or 'syntax', and the
      fundamentals topic otherwise. */
  function Categorize(questionText: string): Topic {
    var text := CleanText(questionText);
    match FirstMatchFrom(TopicKeywords, text, 0)
    case Some(k) => TopicKeywords[k].1
    case None =>
      if Contains(text, "function") || Contains(text, "code") || Contains(text, "syntax")
      then WebProgramming
      else Hardware
  }

  /** `k` is the first position of `table` whose keyword occurs in `text`. */
  predicate IsFirstMatch(table: seq<(string, Topic)>, text: string, k: nat) {
    k < |table| && Contains(text, table[k].0)
    && forall j :: 0 <= j < k ==> !Contains(text, table[j].0)
  }

  lemma {:induction false} FirstMatchFromSpec(table: seq<(string, Topic)>, text: string, i: nat)
    requires i <= |table|
    ensures FirstMatchFrom(table, text, i).Some? ==>
      var k := FirstMatchFrom(table, text, i).value;
      Contains(text, table[k].0) && forall j :: i <= j < k ==> !Contains(text, table[j].0)
    ensures FirstMatchFrom(table, text, i).None? <==>
      forall j :: i <= j < |table| ==> !Contains(text, table[j].0)
    decreases |table| - i
  {
    if i < |table| && !Contains(text, table[i].0) {
      FirstMatchFromSpec(table, text, i + 1);
    }
  }

  /** First match wins: the search finds exactly the first table position
      whose keyword occurs in the text, and finds nothing only when no
      keyword occurs. */
  lemma FirstMatchIsFirst(table: seq<(string, Topic)>, text: string)
    ensures forall k: nat :: FirstMatchFrom(table, text, 0) == Some(k) <==> IsFirstMatch(table, text, k)
    ensures FirstMatchFrom(table, text, 0).None? <==>
      forall j :: 0 <= j < |table| ==> !Contains(text, table[j].0)
  {
    FirstMatchFromSpec(table, text, 0);
  }

  /** The categoriser, stated against the table: the topic of the first
      matching keyword; with no match, 'code' or 'syntax' gives the
      programming topic and anything else the fundamentals topic. The
      fallback's own 'function' test never decides anything: 'function' is
      already a keyword, so text containing it always has a match. */
  lemma CategorizeSpec(questionText: string)
    ensures var text := CleanText(questionText);
      (forall k: nat :: IsFirstMatch(TopicKeywords, text, k) ==> Categorize(questionText) == TopicKeywords[k].1)
      && ((forall j :: 0 <= j < |TopicKeywords| ==> !Contains(text, TopicKeywords[j].0)) ==>
            !Contains(text, "function")
            && Categorize(questionText) ==
                 if Contains(text, "code") || Contains(text, "syntax") then WebProgramming else Hardware)
  {
    var text := CleanText(questionText);
    FirstMatchIsFirst(TopicKeywords, text);
    FunctionIsAKeyword();
  }

  /** If some keyword occurs and every keyword up to it belongs to topic
      `t`, the result is `t`: whatever the first match is, it is no later. */
  lemma CategorizeByEarlyKeyword(questionText: string, j: nat, t: Topic)
    requires j < |TopicKeywords| && Contains(CleanText(questionText), TopicKeywords[j].0)
    requires forall i :: 0 <= i <= j ==> TopicKeywords[i].1 == t
    ensures Categorize(questionText) == t
  {
    var text := CleanText(questionText);
    FirstMatchIsFirst(TopicKeywords, text);
    var f := FirstMatchFrom(TopicKeywords, text, 0);
    assert f.Some?;
    assert f.value <= j;
  }

  /** A fundamentals keyword anywhere in the cleaned text decides the
      topic: the table opens with all fifteen of them. */
  lemma HardwareKeywordDecides(questionText: string, j: nat)
    requires j < |HardwareWords| && Contains(CleanText(questionText), HardwareWords[j])
    ensures Categorize(questionText) == Hardware
  {
    HardwareKeywordsFirst();
    CategorizeByEarlyKeyword(questionText, j, Hardware);
  }

  /** Any cleaned text containing "ram" or "rom" (as in "programming" or
      "from") is classed as hardware: every keyword before them is. */
  lemma RamOrRomMeansHardware(questionText: string)
    requires Contains(CleanText(questionText), "ram") || Contains(CleanText(questionText), "rom")
    ensures Categorize(questionText) == Hardware
  {
    if Contains(CleanText(questionText), "ram") {
      HardwareKeywordDecides(questionText, 4);
    } else {
      HardwareKeywordDecides(questionText, 5);
    }
  }

  /** First match, not longest match: the keyword 'programming' can never
      decide a topic, because "ram" inside it matches first. */
  lemma ProgrammingMeansHardware(questionText: string)
    requires Contains(CleanText(questionText), "programming")
    ensures Categorize(questionText) == Hardware
  {
    assert OccursAt("programming", "ram", 4);
    ContainsTransitive(CleanText(questionText), "programming", "ram");
    RamOrRomMeansHardware(questionText);
  }

  /** Case is ignored: the category of a text and of its lower-cased form
      agree. */
  lemma CategorizeIgnoresCase(questionText: string)
    ensures Categorize(questionText) == Categorize(Lower(questionText))
  {
    LowerStripCommute(questionText);
    LowerIdempotent(StripTags(questionText));
    assert CleanText(Lower(questionText)) == CleanText(questionText);
  }

  lemma {:induction false} StripTagsNoAngle(s: string)
    requires '<' !in s
    ensures StripTags(s) == s
    decreases |s|
  {
    if s != [] {
      assert '<' !in s[1..];
      StripTagsNoAngle(s[1..]);
    }
  }

  lemma CpuExampleLower(q: string)
    requires q == "What is CPU?"
    ensures |Lower(q)| == 12 && Lower(q)[8..11] == "cpu"
  {
    assert LowerChar('C') == 'c' && LowerChar('P') == 'p' && LowerChar('U') == 'u';
  }

  /** The example question "What is CPU?" is a hardware question. */
  lemma CategorizeCpuExample(q: string)
    requires q == "What is CPU?"
    ensures Categorize(q) == Hardware
  {
    assert '<' !in q;
    StripTagsNoAngle(q);
    CpuExampleLower(q);
    assert OccursAt(CleanText(q), "cpu", 8);
    HardwareKeywordDecides(q, 8);
  }

  /** `sanitizeHTML` returns its input unchanged. */
  function SanitizeHtml(text: string): (r: string)
    ensures r == text
  {
    text
  }
}
