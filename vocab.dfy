/** The Treg differentiation vocabulary: the level table, the first-match-wins stage
    classifier, the stage-specific cluster labeller and two small helpers
    (enhanced_treg_vocab.py). */
module TregVocab {
  import opened Strings

  // ---------------------------------------------------------------------------
  // The level table ENHANCED_LEVEL_COLOR_MAPPING
  // ---------------------------------------------------------------------------

  /** `markers` is a plain list for most levels and a dict of named lists for level 4. */
  datatype Markers = MarkerList(items: seq<string>) | MarkerGroups(groups: seq<(string, seq<string>)>)

  /** The value of a level-specific key: a string, a list, or a dict of named lists. */
  datatype Field = TextField(text: string) | ListField(items: seq<string>) | GroupsField(groups: seq<(string, seq<string>)>)

  /** One entry of the table. `extras` holds the keys only some entries have, by name.
      The ROOT entry carries a second entry nested under its own key 7, which is the only
      place the iTreg description lives. */
  datatype LevelInfo = LevelInfo(
    color: string,
    name: string,
    description: string,
    markers: Markers,
    keywords: seq<string>,
    extras: seq<(string, Field)>,
    nested: Option<(int, LevelInfo)>)

  const InducedTregInfo: LevelInfo := LevelInfo(
    "#27AE60", "iTreg (Induced)", "Peripherally Induced Regulatory T Cell",
    MarkerList(["induced", "peripheral", "TGF-β+", "RA+", "gut-associated"]),
    ["peripheral conversion", "TGF-beta induced", "retinoic acid", "oral tolerance", "gut immunity", "iTreg"],
    [("origin", TextField("peripheral")), ("stability", TextField("variable"))],
    None)

  /** The table, keys 0..7 in order. */
  function LevelMapping(): (m: map<int, LevelInfo>)
    ensures forall l :: l in m <==> 0 <= l <= 7
    ensures m[7].name == "ROOT" && m[7].nested == Some((7, InducedTregInfo))
    ensures forall l | 0 <= l <= 6 :: m[l].nested == None
    ensures forall l | l in m :: m[l].markers.MarkerGroups? <==> l == 4
  {
    map[
      0 := LevelInfo("#E74C3C", "HSC", "Hematopoietic Stem Cell",
             MarkerList(["Lin-", "Sca-1+", "c-Kit+", "CD34-", "CD150+"]),
             ["stem cell", "multipotent", "self-renewal", "bone marrow"], [], None),
      1 := LevelInfo("#3498DB", "CLP", "Common Lymphoid Progenitor",
             MarkerList(["IL-7R+", "Flt3+", "Lin-", "Sca-1+"]),
             ["lymphoid", "IL-7", "progenitor", "commitment"], [], None),
      2 := LevelInfo("#9B59B6", "CD4+T", "CD4+ T Helper Cell",
             MarkerList(["CD4+", "TCR+", "CD3+", "CD8-"]),
             ["helper T", "MHC-II", "TCR", "thymic selection"], [], None),
      3 := LevelInfo("#1ABC9C", "CD4+CD25+CD127low", "CD4+CD25high CD127low T Cell",
             MarkerList(["CD4+", "CD25high", "CD127low", "IL-7Rαlow", "GITR+"]),
             ["CD25 high expression", "CD127 low", "IL-7R alpha low", "IL-2R", "activated T cell",
              "Treg precursor", "human Treg identification"],
             [("human_treg_markers", ListField(["CD4+", "CD25+", "CD127low/−", "IL-7Rα low"]))], None),
      4 := LevelInfo("#F39C12", "nTreg/iTreg", "Thymic/Peripheral Origin Treg",
             MarkerGroups([("nTreg", ["thymic", "Helios+", "Nrp1+", "natural"]),
                           ("iTreg", ["peripheral", "Helios-", "induced", "antigen-driven"])]),
             ["thymic selection", "peripheral conversion", "TGF-beta induction", "antigen recognition"], [], None),
      5 := LevelInfo("#16A085", "Foxp3+Treg", "Foxp3-expressing Regulatory T Cell",
             MarkerList(["Foxp3+", "CD4+", "CD25high", "CD127low", "CTLA-4+"]),
             ["Foxp3", "transcription factor", "epigenetic stability", "Treg identity", "TSDR",
              "demethylation", "CD45RA", "stable vs transient"],
             [("stability_markers",
               GroupsField([("stable", ["TSDR demethylation", "CNS2 demethylation", "CD45RA+", "resting Treg"]),
                            ("transient", ["TSDR methylated", "activated effector", "CD45RO+", "temporary Foxp3"])]))],
             None),
      6 := LevelInfo("#27AE60", "Functional Treg", "Cytokine-producing Suppressive Treg",
             MarkerList(["Foxp3+", "IL-10+", "TGF-beta+", "CTLA-4+"]),
             ["immunosuppression", "tolerance", "cytokine production", "suppressive function"],
             [("cytokines", ListField(["IL-10", "TGF-beta", "IL-35"])),
              ("mechanisms", ListField(["CTLA-4", "LAG-3", "PD-1", "contact-dependent"]))],
             None),
      7 := LevelInfo("#95A5A6", "ROOT", "Root Node", MarkerList([]),
             ["hierarchy root", "top level"], [], Some((7, InducedTregInfo)))
    ]
  }

  // ---------------------------------------------------------------------------
  // Phrase lists of determine_treg_level
  // ---------------------------------------------------------------------------

  const FunctionalCytokines: seq<string> :=
    ["il-10", "il-35", "tgf-beta secret", "tgf-β secret", "il-10 produc", "il-10+", "il-10 secret"]
  const FunctionalMechanisms: seq<string> :=
    ["suppressive function", "immunosuppression", "immune suppression", "contact-dependent suppress",
     "effector suppress", "ctla-4 mediat", "lag-3 express", "immune tolerance mechanism"]
  const FunctionalKeywords: seq<string> :=
    ["suppressor cell", "suppressive capacity", "suppressive activity", "regulatory function",
     "tolerogenic", "anti-inflammatory"]
  const Foxp3Specific: seq<string> :=
    ["foxp3 express", "foxp3+", "foxp3 positive", "scurfin", "foxp3 transcript", "ipex",
     "foxp3 gene", "foxp3 protein"]
  const StabilityMarkers: seq<string> := ["tsdr demethyl", "cd45ra", "cns2 demethyl", "epigenetic"]
  const TransientMarkers: seq<string> := ["transient foxp3", "temporary", "activation-induced foxp3"]
  const NtregSpecific: seq<string> :=
    ["thymic treg", "natural treg", "ntreg", "ttreg", "helios+ treg", "nrp1+ treg", "aire medulla"]
  const ItregSpecific: seq<string> :=
    ["induced treg", "itreg", "ptreg", "peripheral treg conversion", "tgf-beta induc", "tgf-β induc",
     "retinoic acid treg", "gut-associated treg", "oral tolerance treg"]
  const Cd25Cd127Specific: seq<string> :=
    ["cd4+cd25+cd127low", "cd4+ cd25+ cd127low", "cd25high cd127low", "cd25+ cd127-", "cd127low treg",
     "cd127- treg", "il-7rαlow treg", "il-7r alpha low regulatory"]
  const AdvancedMarkers: seq<string> := ["foxp3", "thymic treg", "induced treg", "ntreg", "itreg"]
  const TregKeywords: seq<string> := ["regulatory t", "treg", "foxp3", "cd25+", "suppressive", "tolerance"]
  const HscVerySpecific: seq<string> :=
    ["lin-sca-1+c-kit+", "lin- sca-1+ c-kit+", "lsk cell", "cd34-cd150+", "cd34- cd150+",
     "slam marker hsc", "long-term hsc", "lt-hsc", "quiescent hsc"]
  const HscGeneral: seq<string> := ["hematopoietic stem", "hsc", "bone marrow niche"]
  const HscContext: seq<string> := ["self-renewal", "multipotent", "quiescence", "stem cell niche"]
  const LymphoidMentions: seq<string> := ["lymphoid", "t cell", "b cell"]
  const ClpSpecific: seq<string> :=
    ["common lymphoid progenitor", "clp", "lymphoid progenitor", "il-7r+ progenitor", "flt3+ il-7r+",
     "lymphoid lineage commitment"]
  const TCellMentions: seq<string> := ["cd4+", "cd8+", "tcr", "thymocyte"]
  const Cd4Specific: seq<string> :=
    ["cd4+ t cell", "cd4 positive t cell", "helper t cell", "th1 cell", "th2 cell", "th17 cell",
     "naive cd4", "effector cd4"]
  const GeneralNtreg: seq<string> := ["thymus", "thymic", "natural regulatory", "central tolerance"]
  const GeneralItreg: seq<string> :=
    ["peripheral", "induced", "conversion", "gut", "intestin", "mucosal", "tgf", "oral tolerance"]

  // ---------------------------------------------------------------------------
  // determine_treg_level
  // ---------------------------------------------------------------------------

  /** Twice `functional_score`: 2 per cytokine or mechanism phrase present, 1 per
      functional keyword present, so the threshold `>= 2` becomes `>= 4`. */
  function FunctionalScore2(c: string): nat
  {
    2 * CountIn(c, FunctionalCytokines) + 2 * CountIn(c, FunctionalMechanisms) + CountIn(c, FunctionalKeywords)
  }

  /** The stage of a text: the first rule of the decision list that fires. */
  function DetermineTregLevel(content: string): (r: int)
    ensures 0 <= r <= 7
  {
    var c := Lower(content);
    if FunctionalScore2(c) >= 4 || (AnyIn(c, FunctionalCytokines) && AnyIn(c, FunctionalMechanisms)) then 6
    else if AnyIn(c, Foxp3Specific)
         && (AnyIn(c, StabilityMarkers + TransientMarkers) || FunctionalScore2(c) < 4) then 5
    else if AnyIn(c, NtregSpecific) then 4
    else if AnyIn(c, ItregSpecific) then 7
    else if AnyIn(c, Cd25Cd127Specific) && !AnyIn(c, AdvancedMarkers) then 3
    else
      var context := AnyIn(c, TregKeywords);
      if !context && AnyIn(c, HscVerySpecific) then 0
      else if !context && AnyIn(c, HscGeneral) && AnyIn(c, HscContext) && !AnyIn(c, LymphoidMentions) then 0
      else if !context && AnyIn(c, ClpSpecific) && !AnyIn(c, TCellMentions) then 1
      else if !context && AnyIn(c, Cd4Specific) then 2
      else if context && AnyIn(c, GeneralItreg) then 7
      else if context && AnyIn(c, GeneralNtreg) then 4
      else if context && (Contains(c, "regulatory t") || Contains(c, "cd25+")) then 4
      else 0
  }

  /** A cytokine hit together with a mechanism hit already reaches the score threshold,
      so the second disjunct of the level-6 test never decides anything. */
  lemma CombinationReachesScore(c: string)
    requires AnyIn(c, FunctionalCytokines) && AnyIn(c, FunctionalMechanisms)
    ensures FunctionalScore2(c) >= 4
  {
    CountInPositive(c, FunctionalCytokines);
    CountInPositive(c, FunctionalMechanisms);
  }

  /** Level 6 exactly when the (doubled) functional score reaches 4. */
  lemma Level6Iff(content: string)
    ensures DetermineTregLevel(content) == 6 <==> FunctionalScore2(Lower(content)) >= 4
  {
    var c := Lower(content);
    if AnyIn(c, FunctionalCytokines) && AnyIn(c, FunctionalMechanisms) {
      CombinationReachesScore(c);
    }
  }

  /** Level 5 exactly when the functional test fails and a Foxp3-specific phrase occurs:
      once past the level-6 test the score is always below the threshold. */
  lemma Level5Iff(content: string)
    ensures DetermineTregLevel(content) == 5
            <==> FunctionalScore2(Lower(content)) < 4 && AnyIn(Lower(content), Foxp3Specific)
  {
    Level6Iff(content);
  }

  /** nTreg phrases win over iTreg phrases: a text reaching the origin tests with an
      nTreg phrase gets 4 whatever iTreg phrases it also holds. */
  lemma NtregBeforeItreg(content: string)
    requires FunctionalScore2(Lower(content)) < 4 && !AnyIn(Lower(content), Foxp3Specific)
    requires AnyIn(Lower(content), NtregSpecific)
    ensures DetermineTregLevel(content) == 4
  {
    Level6Iff(content);
  }

  /** Past the functional, Foxp3 and nTreg tests, a specific iTreg phrase gives 7. */
  lemma ItregSpecificGives7(content: string)
    requires FunctionalScore2(Lower(content)) < 4 && !AnyIn(Lower(content), Foxp3Specific)
    requires !AnyIn(Lower(content), NtregSpecific) && AnyIn(Lower(content), ItregSpecific)
    ensures DetermineTregLevel(content) == 7
  {
    Level6Iff(content);
  }

  /** No text with a specific nTreg phrase is ever classified 7. */
  lemma Level7ExcludesNtreg(content: string)
    requires DetermineTregLevel(content) == 7
    ensures !AnyIn(Lower(content), NtregSpecific)
  {
  }

  /** Level 3 exactly when no earlier rule fires, a CD25/CD127 combination occurs and no
      advanced marker occurs. */
  lemma Level3Iff(content: string)
    ensures var c := Lower(content);
            DetermineTregLevel(content) == 3
            <==> FunctionalScore2(c) < 4 && !AnyIn(c, Foxp3Specific) && !AnyIn(c, NtregSpecific)
                 && !AnyIn(c, ItregSpecific) && AnyIn(c, Cd25Cd127Specific) && !AnyIn(c, AdvancedMarkers)
  {
    Level6Iff(content);
  }

  /** The precursor stages 1 and 2 are given only to texts without any Treg-context word. */
  lemma PrecursorNeedsNoContext(content: string)
    requires DetermineTregLevel(content) == 1 || DetermineTregLevel(content) == 2
    ensures !AnyIn(Lower(content), TregKeywords)
  {
  }

  /** A text with Treg context reaches 0 only through the final fallback: none of the
      general iTreg, general nTreg and explicit Treg cues occurs. */
  lemma ContextZeroIsFallback(content: string)
    requires AnyIn(Lower(content), TregKeywords) && DetermineTregLevel(content) == 0
    ensures var c := Lower(content);
            !AnyIn(c, GeneralItreg) && !AnyIn(c, GeneralNtreg)
            && !Contains(c, "regulatory t") && !Contains(c, "cd25+")
  {
  }

  /** The Treg-context fallback, for a text that no specific rule classifies. */
  lemma ContextFallback(content: string)
    requires var c := Lower(content);
             FunctionalScore2(c) < 4 && !AnyIn(c, Foxp3Specific) && !AnyIn(c, NtregSpecific)
             && !AnyIn(c, ItregSpecific) && !(AnyIn(c, Cd25Cd127Specific) && !AnyIn(c, AdvancedMarkers))
             && AnyIn(c, TregKeywords)
    ensures var c := Lower(content);
            DetermineTregLevel(content)
            == if AnyIn(c, GeneralItreg) then 7
               else if AnyIn(c, GeneralNtreg) || Contains(c, "regulatory t") || Contains(c, "cd25+") then 4
               else 0
  {
    Level6Iff(content);
  }

  // ---------------------------------------------------------------------------
  // generate_enhanced_treg_label
  // ---------------------------------------------------------------------------

  /** The closing line of every label. */
  function SizeTag(clusterSize: int): string
  {
    "(n=" + IntToString(clusterSize) + ")"
  }

  /** `level not in ENHANCED_LEVEL_COLOR_MAPPING` coerces the level to 0. */
  function EffectiveLevel(level: int): (l: int)
    ensures 0 <= l <= 7
    ensures l == level <==> 0 <= level <= 7
  {
    if level in LevelMapping() then level else 0
  }

  /** The first line of a label: the level's table name, except that level 7 is named
      after the nested iTreg entry rather than "ROOT". */
  function LabelHead(l: int): string
    requires 0 <= l <= 7
  {
    if l == 7 then "iTreg (Induced)" else LevelMapping()[l].name
  }

  /** The lines between the head and the size tag, each ending in a newline, chosen by
      the stage's cues in the lower-cased content `c`; a stage whose cues are absent
      falls back to the generic "Cluster <id>" line. */
  function LabelDetail(c: string, l: int, clusterId: int): string
  {
    var generic := "Cluster " + IntToString(clusterId) + "\n";
    if l == 6 then
      var cytokines := (if Contains(c, "il-10") then ["IL-10"] else [])
                       + (if Contains(c, "tgf-beta") || Contains(c, "tgf-β") then ["TGF-β"] else [])
                       + (if Contains(c, "ctla-4") then ["CTLA-4"] else []);
      if cytokines != [] then Join(cytokines, "+") + "\n" else generic
    else if l == 5 then
      var stability := if Contains(c, "tsdr demethyl") || Contains(c, "cd45ra") then "stable"
                       else if Contains(c, "transient") || Contains(c, "cd45ro") then "transient"
                       else "";
      if !Contains(c, "foxp3") then generic
      else if stability == "stable" then "Foxp3+ stable\nTSDR demethyl\n"
      else if stability == "transient" then "Foxp3+ transient\nCD45RO+\n"
      else "Foxp3+\n"
    else if l == 4 then
      if Contains(c, "thymic") || Contains(c, "helios+") then "nTreg-thymic\n"
      else if Contains(c, "peripheral") || Contains(c, "induced") then "iTreg-peripheral\n"
      else generic
    else if l == 7 then
      if Contains(c, "peripheral") || Contains(c, "induced") || Contains(c, "itreg") then
        if Contains(c, "tgf-beta") || Contains(c, "tgf-β") then "peripheral-TGF-β\n"
        else if Contains(c, "gut") || Contains(c, "oral tolerance") then "gut-associated\n"
        else "peripheral\n"
      else ""
    else if l == 3 then
      if Contains(c, "cd127") || Contains(c, "il-7r") then Level3Marked else Level3Plain
    else generic
  }

  const Level3Marked: string := "CD25high CD127low\nIL-2Rα+/IL-7Rα−\n"
  const Level3Plain: string := "CD25high\nIL-2Rα high\n"

  /** The stage label of a cluster: head line, stage-specific detail lines, size tag. */
  function GenerateLabel(content: string, level: int, clusterId: int, clusterSize: int): string
  {
    var l := EffectiveLevel(level);
    LabelHead(l) + "\n" + LabelDetail(Lower(content), l, clusterId) + SizeTag(clusterSize)
  }

  /** Every label opens with its head line and closes with "(n=<cluster_size>)". */
  lemma LabelShape(content: string, level: int, clusterId: int, clusterSize: int)
    ensures var r := GenerateLabel(content, level, clusterId, clusterSize);
            StartsWith(r, LabelHead(EffectiveLevel(level)) + "\n") && EndsWith(r, SizeTag(clusterSize))
  {
    var l := EffectiveLevel(level);
    var head := LabelHead(l) + "\n";
    var detail := LabelDetail(Lower(content), l, clusterId);
    var tail := SizeTag(clusterSize);
    assert head + detail + tail == head + (detail + tail);
    ConcatStartsWith(head, detail + tail);
    ConcatEndsWith(head + detail, tail);
  }

  lemma ConcatStartsWith(a: string, b: string)
    ensures StartsWith(a + b, a)
  {
    assert (a + b)[..|a|] == a;
  }

  lemma ConcatEndsWith(a: string, b: string)
    ensures EndsWith(a + b, b)
  {
    assert (a + b)[|a + b| - |b|..] == b;
  }

  /** An unknown level is labelled exactly as level 0. */
  lemma UnknownLevelLabelsAsHsc(content: string, level: int, clusterId: int, clusterSize: int)
    requires !(0 <= level <= 7)
    ensures GenerateLabel(content, level, clusterId, clusterSize) == GenerateLabel(content, 0, clusterId, clusterSize)
  {
  }

  /** Level-7 labels always open with the iTreg name, never with the table's "ROOT". */
  lemma Level7LabelPrefix(content: string, clusterId: int, clusterSize: int)
    ensures StartsWith(GenerateLabel(content, 7, clusterId, clusterSize), "iTreg (Induced)\n")
  {
    LabelShape(content, 7, clusterId, clusterSize);
  }

  /** For levels 0..6 the first line of the label is the level's table name. */
  lemma LabelStartsWithName(content: string, level: int, clusterId: int, clusterSize: int)
    requires 0 <= level <= 6
    ensures StartsWith(GenerateLabel(content, level, clusterId, clusterSize), LevelMapping()[level].name + "\n")
  {
    LabelShape(content, level, clusterId, clusterSize);
  }

  // ---------------------------------------------------------------------------
  // validate_immune_terminology
  // ---------------------------------------------------------------------------

  /** A label is valid when it has at least two characters, all of them ASCII. */
  function ValidateImmuneTerminology(tag: string): (r: (bool, string))
    ensures r.0 <==> |tag| >= 2 && IsAscii(tag)
    ensures |tag| < 2 ==> r.1 == "Label too short"
    ensures |tag| >= 2 ==> r.1 == if IsAscii(tag) then "Valid ASCII label" else "Contains non-ASCII characters"
  {
    if |tag| < 2 then (false, "Label too short")
    else if IsAscii(tag) then (true, "Valid ASCII label")
    else (false, "Contains non-ASCII characters")
  }

  /** Every label of the precursor stages 0..2 passes the check. */
  lemma PrecursorLabelsValidate(content: string, level: int, clusterId: int, clusterSize: int)
    requires 0 <= level <= 2
    ensures ValidateImmuneTerminology(GenerateLabel(content, level, clusterId, clusterSize))
            == (true, "Valid ASCII label")
  {
    var name := LevelMapping()[level].name;
    assert name == "HSC" || name == "CLP" || name == "CD4+T";
    assert IsAscii(name);
    PrecursorLabel(content, level, clusterId, clusterSize);
    GenericLabelAscii(name, clusterId, clusterSize);
  }

  /** A label made of an ASCII name and the generic cluster line is valid. */
  lemma GenericLabelAscii(name: string, clusterId: int, clusterSize: int)
    requires IsAscii(name)
    ensures ValidateImmuneTerminology(name + "\n" + ("Cluster " + IntToString(clusterId) + "\n" + SizeTag(clusterSize)))
            == (true, "Valid ASCII label")
  {
    var head := name + "\n";
    var generic := "Cluster " + IntToString(clusterId) + "\n";
    AppendAscii(name, "\n");
    AppendAscii("Cluster ", IntToString(clusterId));
    AppendAscii("Cluster " + IntToString(clusterId), "\n");
    AppendAscii("(n=", IntToString(clusterSize));
    AppendAscii("(n=" + IntToString(clusterSize), ")");
    AppendAscii(generic, SizeTag(clusterSize));
    AppendAscii(head, generic + SizeTag(clusterSize));
  }

  /** A precursor stage gets its table name and the generic `Cluster <id>` line. */
  lemma PrecursorLabel(content: string, level: int, clusterId: int, clusterSize: int)
    requires 0 <= level <= 2
    ensures GenerateLabel(content, level, clusterId, clusterSize)
            == LevelMapping()[level].name + "\n" + ("Cluster " + IntToString(clusterId) + "\n" + SizeTag(clusterSize))
  {
    var head := LevelMapping()[level].name + "\n";
    var generic := "Cluster " + IntToString(clusterId) + "\n";
    assert LabelHead(level) + "\n" == head;
    assert LabelDetail(Lower(content), level, clusterId) == generic;
    assert (head + generic) + SizeTag(clusterSize) == head + (generic + SizeTag(clusterSize));
  }

  lemma AppendAscii(a: string, b: string)
    requires IsAscii(a) && IsAscii(b)
    ensures IsAscii(a + b)
  {
    assert forall i | |a| <= i < |a + b| :: (a + b)[i] == b[i - |a|];
  }

  /** A non-ASCII middle part makes the whole string non-ASCII. */
  lemma NonAsciiInside(a: string, b: string, c: string)
    requires !IsAscii(b)
    ensures !IsAscii(a + b + c)
  {
    var i :| 0 <= i < |b| && b[i] as int >= 128;
    assert (a + b + c)[|a| + i] == b[i];
  }

  /** Every level-3 label carries Greek letters and so fails the check. */
  lemma Level3LabelsFailValidation(content: string, clusterId: int, clusterSize: int)
    ensures ValidateImmuneTerminology(GenerateLabel(content, 3, clusterId, clusterSize))
            == (false, "Contains non-ASCII characters")
  {
    var d := LabelDetail(Lower(content), 3, clusterId);
    assert Level3Marked[23] == 'α' && Level3Plain[14] == 'α';
    assert d == Level3Marked || d == Level3Plain;
    NonAsciiInside(LabelHead(3) + "\n", d, SizeTag(clusterSize));
  }

  // ---------------------------------------------------------------------------
  // extract_level_keywords
  // ---------------------------------------------------------------------------

  /** The lower-cased marker list (when `markers` is a list) and keywords of a level;
      empty for a level outside the table. */
  function KeywordPool(level: int): (pool: set<string>)
    ensures !(0 <= level <= 7) ==> pool == {}
  {
    if level in LevelMapping() then
      var info := LevelMapping()[level];
      (if info.markers.MarkerList? then set m | m in info.markers.items :: Lower(m) else {})
      + (set k | k in info.keywords :: Lower(k))
    else {}
  }

  /** The elements of `order` that occur in `c`, in order. */
  function FoundIn(order: seq<string>, c: string): (r: seq<string>)
    ensures forall x :: x in r <==> x in order && Contains(c, x)
    ensures (forall i, j | 0 <= i < j < |order| :: order[i] != order[j])
            ==> forall i, j | 0 <= i < j < |r| :: r[i] != r[j]
  {
    if order == [] then []
    else (if Contains(c, order[0]) then [order[0]] else []) + FoundIn(order[1..], c)
  }

  /** Up to five pool keywords that occur in the lower-cased content. `order` is the
      iteration order of the Python set, which the language leaves unspecified: it lists
      every pool keyword once. */
  function ExtractLevelKeywords(content: string, level: int, order: seq<string>): (r: seq<string>)
    requires forall x :: x in order <==> x in KeywordPool(level)
    requires forall i, j | 0 <= i < j < |order| :: order[i] != order[j]
    ensures |r| <= 5
    ensures forall i, j | 0 <= i < j < |r| :: r[i] != r[j]
    ensures forall x | x in r :: x in KeywordPool(level) && Contains(Lower(content), x)
    ensures |r| < 5 ==> forall x | x in KeywordPool(level) && Contains(Lower(content), x) :: x in r
  {
    Prefix(FoundIn(order, Lower(content)), 5)
  }
}
