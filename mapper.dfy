/**
 * The waste mapper: it turns a detector label such as "Water_Bottle" into one
 * of eight waste classes and attaches the disposal instruction, three reuse
 * ideas and the bin colour for that class.
 *
 * The mapper's four dictionaries are filled once when it is created and never
 * changed, so they are constants here. Python dictionaries keep their
 * insertion order, and the first-partial-match search depends on it, so each
 * dictionary is an ordered list of (key, value) entries.
 */
module WasteMapper {
  import opened Wrappers
  import opened Strings

  // ---------------------------------------------------------------------------
  // The tables
  // ---------------------------------------------------------------------------

  /** Detector label to waste class, in declaration order. */
  const ClassMapping: seq<(string, string)> := [
    // Plastic items
    ("bottle", "plastic_bottle"),
    ("plastic_bottle", "plastic_bottle"),
    ("water_bottle", "plastic_bottle"),
    ("pet_bottle", "plastic_bottle"),
    ("wrapper", "plastic_wrapper"),
    ("plastic_wrapper", "plastic_wrapper"),
    ("bag", "plastic_wrapper"),
    ("plastic_bag", "plastic_wrapper"),
    // Paper items
    ("cup", "paper_cup"),
    ("paper_cup", "paper_cup"),
    ("paper", "paper_cup"),
    ("cardboard", "cardboard_box"),
    ("cardboard_box", "cardboard_box"),
    ("box", "cardboard_box"),
    // Food waste
    ("food", "food_waste"),
    ("food_waste", "food_waste"),
    ("organic", "food_waste"),
    ("banana", "food_waste"),
    ("apple", "food_waste"),
    // Glass
    ("glass", "glass_bottle"),
    ("glass_bottle", "glass_bottle"),
    ("bottle_glass", "glass_bottle"),
    // Metal
    ("can", "metal_can"),
    ("metal_can", "metal_can"),
    ("aluminum", "metal_can"),
    ("tin", "metal_can"),
    // Cloth
    ("cloth", "cloth"),
    ("fabric", "cloth"),
    ("textile", "cloth"),
    ("clothing", "cloth")
  ]

  /** Disposal instruction per waste class; its keys are the eight classes. */
  const DisposalInstructions: seq<(string, string)> := [
    ("plastic_bottle", "Rinse and place in recycling bin. Remove caps if required locally."),
    ("plastic_wrapper", "Check local guidelines. Most thin plastic wrappers go in general waste."),
    ("paper_cup", "Remove plastic lining if possible. Place in paper recycling or general waste."),
    ("food_waste", "Compost if available, otherwise place in organic waste bin."),
    ("glass_bottle", "Rinse and place in glass recycling bin. Remove labels if required."),
    ("metal_can", "Rinse and place in metal recycling bin. Crush to save space."),
    ("cardboard_box", "Flatten and place in paper/cardboard recycling bin."),
    ("cloth", "Donate if usable, otherwise place in textile recycling or general waste.")
  ]

  /** Three reuse ideas per waste class. */
  const ReuseIdeas: seq<(string, seq<string>)> := [
    ("plastic_bottle", [
      "Cut and use as plant propagation containers",
      "Create DIY watering globes for potted plants",
      "Transform into storage containers for small items"]),
    ("plastic_wrapper", [
      "Use as protective wrap for fragile items during moving",
      "Create DIY waterproof covers for outdoor items",
      "Repurpose as temporary storage bags"]),
    ("paper_cup", [
      "Use as seed starter pots (biodegradable)",
      "Create small organizers for desk supplies",
      "Use for arts and crafts projects"]),
    ("food_waste", [
      "Compost to create nutrient-rich soil",
      "Use vegetable scraps to make homemade stock",
      "Regrow vegetables from scraps (e.g., green onions, lettuce)"]),
    ("glass_bottle", [
      "Repurpose as decorative vases or candle holders",
      "Use for storing homemade preserves or oils",
      "Create DIY table lamps or pendant lights"]),
    ("metal_can", [
      "Use as planters for small herbs or succulents",
      "Create rustic utensil holders or organizers",
      "Transform into candle lanterns with decorative holes"]),
    ("cardboard_box", [
      "Use as drawer dividers or closet organizers",
      "Create storage boxes for seasonal items",
      "Repurpose as play structures or forts for children"]),
    ("cloth", [
      "Cut into rags for cleaning",
      "Create patchwork quilts or blankets",
      "Transform into reusable shopping bags or totes"])
  ]

  /** Bin colour per waste class. */
  const DustbinMapping: seq<(string, string)> := [
    ("plastic_bottle", "Blue Bin"),
    ("plastic_wrapper", "Red Bin"),
    ("paper_cup", "Blue Bin"),
    ("food_waste", "Green Bin"),
    ("glass_bottle", "Blue Bin"),
    ("metal_can", "Blue Bin"),
    ("cardboard_box", "Blue Bin"),
    ("cloth", "Yellow Bin")
  ]

  /** The class used when a label matches nothing. */
  const DefaultClass: string := "plastic_bottle"

  /** The defaults of the three guidance lookups, for a class they do not know. */
  const UnknownDisposal: string := "Check local guidelines."
  const DefaultDustbin: string := "Blue Bin"

  // ---------------------------------------------------------------------------
  // Dictionary lookup
  // ---------------------------------------------------------------------------

  /** Entry `i` is the first one whose key is `key`. */
  ghost predicate FirstKeyAt<V>(table: seq<(string, V)>, key: string, i: int) {
    0 <= i < |table| && table[i].0 == key && forall j | 0 <= j < i :: table[j].0 != key
  }

  /** `table.get(key)`: the value of the first entry with that key, if any. */
  function Lookup<V>(table: seq<(string, V)>, key: string): (r: Option<V>)
    ensures r.None? <==> forall i | 0 <= i < |table| :: table[i].0 != key
    ensures r.Some? ==> exists i :: FirstKeyAt(table, key, i) && r.value == table[i].1
    ensures forall i | FirstKeyAt(table, key, i) :: r == Some(table[i].1)
  {
    if |table| == 0 then None
    else if table[0].0 == key then Some(table[0].1)
    else
      var r := Lookup(table[1..], key);
      assert forall i | 0 < i < |table| :: table[1..][i - 1] == table[i];
      r
  }

  // ---------------------------------------------------------------------------
  // Resolving a label to a waste class
  // ---------------------------------------------------------------------------

  /** Python's `key in raw or raw in key`. */
  predicate PartialMatch(key: string, raw: string) {
    IsInfix(key, raw) || IsInfix(raw, key)
  }

  /** Entry `i` is the first one whose key partially matches `raw`. */
  ghost predicate FirstPartialAt(table: seq<(string, string)>, raw: string, i: int) {
    0 <= i < |table| && PartialMatch(table[i].0, raw)
    && forall j | 0 <= j < i :: !PartialMatch(table[j].0, raw)
  }

  /** The value of the first entry, in order, whose key partially matches `raw`. */
  function FirstPartial(table: seq<(string, string)>, raw: string): (r: Option<string>)
    ensures r.None? <==> forall i | 0 <= i < |table| :: !PartialMatch(table[i].0, raw)
    ensures r.Some? ==> exists i :: FirstPartialAt(table, raw, i) && r.value == table[i].1
    ensures forall i | FirstPartialAt(table, raw, i) :: r == Some(table[i].1)
  {
    if |table| == 0 then None
    else if PartialMatch(table[0].0, raw) then Some(table[0].1)
    else
      var r := FirstPartial(table[1..], raw);
      assert forall i | 0 < i < |table| :: table[1..][i - 1] == table[i];
      r
  }

  /** A key no entry has is missed; stated for any table so that it applies cheaply to the constant ones. */
  lemma LookupMiss<V>(table: seq<(string, V)>, key: string)
    requires forall i | 0 <= i < |table| :: table[i].0 != key
    ensures Lookup(table, key) == None
  {
  }

  /** The first entry with the key gives the value. */
  lemma LookupHit<V>(table: seq<(string, V)>, key: string, i: int)
    requires FirstKeyAt(table, key, i)
    ensures Lookup(table, key) == Some(table[i].1)
  {
  }

  /** The first partially matching entry gives the value. */
  lemma PartialHit(table: seq<(string, string)>, raw: string, i: int)
    requires FirstPartialAt(table, raw, i)
    ensures FirstPartial(table, raw) == Some(table[i].1)
  {
  }

  /**
   * The class of an already lower-cased label: the value of its exact key if
   * it has one, otherwise that of the first partially matching key,
   * otherwise the default class.
   */
  function ResolveClass(raw: string): string {
    match Lookup(ClassMapping, raw)
    case Some(c) => c
    case None =>
      match FirstPartial(ClassMapping, raw)
      case Some(c) => c
      case None => DefaultClass
  }

  /** The class of a detector label, whatever its letter case. */
  function ClassOfLabel(name: string): string {
    ResolveClass(Lower(name))
  }

  // ---------------------------------------------------------------------------
  // Guidance lookups
  // ---------------------------------------------------------------------------

  /** `get_all_classes()`: the keys of the disposal table, in order. */
  function GetAllClasses(): (classes: seq<string>)
    ensures classes == ["plastic_bottle", "plastic_wrapper", "paper_cup", "food_waste",
                        "glass_bottle", "metal_can", "cardboard_box", "cloth"]
  {
    seq(|DisposalInstructions|, i requires 0 <= i < |DisposalInstructions| => DisposalInstructions[i].0)
  }

  /** `get_disposal(c)`: the instruction for `c`, or "Check local guidelines." for an unknown class. */
  function GetDisposal(wasteClass: string): (text: string)
    ensures forall i | FirstKeyAt(DisposalInstructions, wasteClass, i) :: text == DisposalInstructions[i].1
    ensures wasteClass !in GetAllClasses() ==> text == UnknownDisposal
  {
    Lookup(DisposalInstructions, wasteClass).GetOr(UnknownDisposal)
  }

  /** `get_reuse_ideas(c)`: the ideas for `c`, or none for an unknown class. */
  function GetReuseIdeas(wasteClass: string): (ideas: seq<string>)
    ensures forall i | FirstKeyAt(ReuseIdeas, wasteClass, i) :: ideas == ReuseIdeas[i].1
    ensures wasteClass !in GetAllClasses() ==> ideas == []
  {
    assert forall i | 0 <= i < |ReuseIdeas| :: ReuseIdeas[i].0 == GetAllClasses()[i];
    Lookup(ReuseIdeas, wasteClass).GetOr([])
  }

  /** The bin colour `map_detection` attaches: that of the class, or "Blue Bin". */
  function GetDustbin(wasteClass: string): (bin: string)
    ensures forall i | FirstKeyAt(DustbinMapping, wasteClass, i) :: bin == DustbinMapping[i].1
    ensures wasteClass !in GetAllClasses() ==> bin == DefaultDustbin
  {
    assert forall i | 0 <= i < |DustbinMapping| :: DustbinMapping[i].0 == GetAllClasses()[i];
    Lookup(DustbinMapping, wasteClass).GetOr(DefaultDustbin)
  }

  // ---------------------------------------------------------------------------
  // map_detection
  // ---------------------------------------------------------------------------

  /** A detection as the detector reports it; every field may be missing. */
  datatype Detection = Detection(
    className: Option<string>,
    confidence: Option<real>,
    bbox: Option<seq<real>>,
    classId: Option<int>)

  /** A detection after mapping: the waste class and its guidance, the rest copied. */
  datatype MappedDetection = MappedDetection(
    wasteClass: string,
    confidence: real,
    bbox: seq<real>,
    classId: int,
    disposal: string,
    ideas: seq<string>,
    dustbin: string)

  /**
   * The partial-matching loop of `map_detection`: the value of the first
   * entry, in order, whose key is a substring of `raw` or has `raw` as a
   * substring; the search stops at that entry.
   */
  method SearchPartial(table: seq<(string, string)>, raw: string) returns (found: Option<string>)
    ensures found == FirstPartial(table, raw)
  {
    found := None;
    var i := 0;
    while i < |table|
      invariant 0 <= i <= |table|
      invariant found.None?
      invariant forall j | 0 <= j < i :: !PartialMatch(table[j].0, raw)
    {
      var (key, value) := table[i];
      if IsInfix(key, raw) || IsInfix(raw, key) {
        assert FirstPartialAt(table, raw, i);
        found := Some(value);
        break;
      }
      i := i + 1;
    }
  }

  /** `map_detection(detection)`. */
  method MapDetection(detection: Detection) returns (mapped: MappedDetection)
    ensures mapped.wasteClass == ClassOfLabel(detection.className.GetOr(""))
    ensures mapped.wasteClass in GetAllClasses()
    ensures mapped.confidence == detection.confidence.GetOr(0.0)
    ensures mapped.bbox == detection.bbox.GetOr([0.0, 0.0, 0.0, 0.0])
    ensures mapped.classId == detection.classId.GetOr(0)
    ensures mapped.disposal == GetDisposal(mapped.wasteClass)
    ensures mapped.ideas == GetReuseIdeas(mapped.wasteClass)
    ensures mapped.dustbin == GetDustbin(mapped.wasteClass)
  {
    var raw := Lower(detection.className.GetOr(""));

    // Try to map the class name
    var wasteClass := Lookup(ClassMapping, raw);

    // If not found, try partial matching
    if wasteClass.None? {
      wasteClass := SearchPartial(ClassMapping, raw);
    }

    // Default fallback
    if wasteClass.None? {
      wasteClass := Some(DefaultClass);
    }

    ResolvedClassIsKnown(raw);
    mapped := MappedDetection(
      wasteClass.value,
      detection.confidence.GetOr(0.0),
      detection.bbox.GetOr([0.0, 0.0, 0.0, 0.0]),
      detection.classId.GetOr(0),
      GetDisposal(wasteClass.value),
      GetReuseIdeas(wasteClass.value),
      GetDustbin(wasteClass.value));
  }

  // ---------------------------------------------------------------------------
  // Properties of the resolution
  // ---------------------------------------------------------------------------

  /** Every value of the label table is one of the eight classes. */
  lemma MappingValuesAreClasses()
    ensures forall i | 0 <= i < |ClassMapping| :: ClassMapping[i].1 in GetAllClasses()
  {
  }

  /** A label always resolves to one of the eight classes. */
  lemma ResolvedClassIsKnown(raw: string)
    ensures ResolveClass(raw) in GetAllClasses()
  {
    MappingValuesAreClasses();
  }

  /** An exact key decides the class, whatever keys before it partially match. */
  lemma ExactMatchWins(raw: string, i: int)
    requires FirstKeyAt(ClassMapping, raw, i)
    ensures ResolveClass(raw) == ClassMapping[i].1
  {
    LookupHit(ClassMapping, raw, i);
  }

  /** Without an exact key, the first partially matching key decides; later ones are ignored. */
  lemma FirstPartialMatchWins(raw: string, i: int)
    requires forall j | 0 <= j < |ClassMapping| :: ClassMapping[j].0 != raw
    requires FirstPartialAt(ClassMapping, raw, i)
    ensures ResolveClass(raw) == ClassMapping[i].1
  {
    LookupMiss(ClassMapping, raw);
    PartialHit(ClassMapping, raw, i);
  }

  /** When no key matches, exactly or partially, the class is the default one. */
  lemma NoMatchGivesDefault(raw: string)
    requires forall j | 0 <= j < |ClassMapping| :: !PartialMatch(ClassMapping[j].0, raw)
    ensures ResolveClass(raw) == DefaultClass
  {
    forall j | 0 <= j < |ClassMapping| ensures ClassMapping[j].0 != raw {
      EmptyIsInfix(raw);
      assert IsPrefix(raw, raw);
    }
  }

  /**
   * A missing or empty label is no key, but "" is a substring of the first
   * key "bottle", so it resolves through partial matching to "plastic_bottle".
   */
  lemma EmptyLabel()
    ensures Lookup(ClassMapping, "") == None
    ensures FirstPartial(ClassMapping, "") == Some("plastic_bottle")
    ensures ClassOfLabel("") == "plastic_bottle"
  {
    NoEmptyKey();
    LookupMiss(ClassMapping, "");
    EmptyIsInfix("bottle");
    assert ClassMapping[0] == ("bottle", "plastic_bottle");
    assert FirstPartialAt(ClassMapping, "", 0);
    PartialHit(ClassMapping, "", 0);
    assert Lower("") == "";
  }

  lemma NoEmptyKey()
    ensures forall i | 0 <= i < |ClassMapping| :: |ClassMapping[i].0| > 0
  {
  }

  /**
   * "Bottle_Glass" is the key "bottle_glass" once lower-cased, so it is a
   * glass bottle, although the earlier key "bottle" is a substring of it.
   */
  lemma ExactKeyBeatsEarlierPartialKey()
    ensures PartialMatch(ClassMapping[0].0, "bottle_glass")
    ensures ClassOfLabel("Bottle_Glass") == "glass_bottle"
  {
    assert ClassMapping[0].0 == "bottle" && IsPrefix("bottle", "bottle_glass");
    assert Lower("Bottle_Glass") == "bottle_glass";
    BottleGlassIsKey();
    ExactMatchWins("bottle_glass", 21);
  }

  /** "bottle_glass" is key 21 of the label table and no earlier key. */
  lemma BottleGlassIsKey()
    ensures FirstKeyAt(ClassMapping, "bottle_glass", 21)
  {
    assert forall j | 0 <= j < 21 :: |ClassMapping[j].0| != 12 || ClassMapping[j].0[0] != 'b';
  }

  /** Labels that differ only in letter case resolve to the same class. */
  lemma CaseInsensitive(a: string, b: string)
    requires Lower(a) == Lower(b)
    ensures ClassOfLabel(a) == ClassOfLabel(b)
  {
  }

  /** Every class the mapper produces has its own guidance: no lookup falls back to a default. */
  lemma ClassesHaveGuidance(wasteClass: string)
    requires wasteClass in GetAllClasses()
    ensures Lookup(DisposalInstructions, wasteClass).Some?
    ensures Lookup(ReuseIdeas, wasteClass).Some? && |GetReuseIdeas(wasteClass)| == 3
    ensures Lookup(DustbinMapping, wasteClass).Some?
  {
    var i :| 0 <= i < 8 && GetAllClasses()[i] == wasteClass;
    assert DisposalInstructions[i].0 == wasteClass;
    assert ReuseIdeas[i].0 == wasteClass;
    assert DustbinMapping[i].0 == wasteClass;
    assert forall k | 0 <= k < |ReuseIdeas| :: |ReuseIdeas[k].1| == 3;
  }
}
