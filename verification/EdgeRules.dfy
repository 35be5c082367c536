/** The registry of edge types: every rule about a type is stated in one record, and the
    lists the rest of the graph layer consults are derived from the records. */
module EdgeRules {

  datatype EdgeType =
    | PartOf | Evidences | Grounds
    | RelatedTo | PrerequisiteFor | Synthesizes | Contradicts

  datatype NodeLabel = SourceNode | ConceptNode | TopicNode | ChunkNode

  datatype Rule = Rule(
    name: EdgeType,
    automatic: bool,
    symmetric: bool,
    walkable: bool,
    extractable: bool,
    curatorSettable: bool
  )

  const REGISTRY: seq<Rule> := [
    Rule(PartOf, true, false, false, false, false),
    Rule(Evidences, true, false, false, false, false),
    Rule(Grounds, true, false, false, false, false),
    Rule(RelatedTo, false, true, true, true, true),
    Rule(PrerequisiteFor, false, false, true, true, true),
    Rule(Synthesizes, false, false, true, false, true),
    Rule(Contradicts, false, false, false, false, true)
  ]

  /** The position of a type's record in the registry. */
  function Position(t: EdgeType): (i: nat)
    ensures i < |REGISTRY| && REGISTRY[i].name == t
  {
    match t
    case PartOf => 0
    case Evidences => 1
    case Grounds => 2
    case RelatedTo => 3
    case PrerequisiteFor => 4
    case Synthesizes => 5
    case Contradicts => 6
  }

  function RuleOf(t: EdgeType): Rule {
    REGISTRY[Position(t)]
  }

  predicate IsSemantic(t: EdgeType) {
    !RuleOf(t).automatic
  }

  predicate IsSymmetric(t: EdgeType) {
    RuleOf(t).symmetric
  }

  predicate IsExtractable(t: EdgeType) {
    RuleOf(t).extractable
  }

  /** Where the type's upper-case name falls in alphabetical order, as ORDER BY edge_type
      sees it. */
  function NameRank(t: EdgeType): nat {
    match t
    case Contradicts => 0
    case Evidences => 1
    case Grounds => 2
    case PartOf => 3
    case PrerequisiteFor => 4
    case RelatedTo => 5
    case Synthesizes => 6
  }

  /** The type's name, as the table stores it. */
  function NameOf(t: EdgeType): string {
    match t
    case PartOf => "PART_OF"
    case Evidences => "EVIDENCES"
    case Grounds => "GROUNDS"
    case RelatedTo => "RELATED_TO"
    case PrerequisiteFor => "PREREQUISITE_FOR"
    case Synthesizes => "SYNTHESIZES"
    case Contradicts => "CONTRADICTS"
  }

  predicate Before(a: string, b: string) {
    b != "" && (a == "" || a[0] < b[0] || (a[0] == b[0] && Before(a[1..], b[1..])))
  }

  /** The ranks follow the alphabetical order of the names. */
  lemma RanksAreAlphabetical(a: EdgeType, b: EdgeType)
    requires NameRank(a) < NameRank(b)
    ensures Before(NameOf(a), NameOf(b))
  {
    assert Before("PART_OF"[1..], "PREREQUISITE_FOR"[1..]);
  }

  /** What the registry amounts to: the extractor may only write semantic types, the curator
      may set exactly the semantic ones, and RELATED_TO is the one symmetric type. */
  lemma RegistryMembership(t: EdgeType)
    ensures IsExtractable(t) <==> t in {RelatedTo, PrerequisiteFor}
    ensures RuleOf(t).walkable <==> t in {RelatedTo, PrerequisiteFor, Synthesizes}
    ensures RuleOf(t).curatorSettable <==> IsSemantic(t)
    ensures IsSemantic(t) <==> t in {RelatedTo, PrerequisiteFor, Synthesizes, Contradicts}
    ensures IsSymmetric(t) <==> t == RelatedTo
  {
    match t
    case PartOf =>
    case Evidences =>
    case Grounds =>
    case RelatedTo =>
    case PrerequisiteFor =>
    case Synthesizes =>
    case Contradicts =>
  }
}
