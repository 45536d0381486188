/**
 The persisted entities: notes and containers, with their closed
 enumerations. Identifiers are the canonical strings of UUIDs; timestamps
 are abstract instants, larger meaning later.
 */
module Models {
  import opened Fields

  type Id = string
  type Timestamp = nat

  /** The CODE workflow stage of a note. */
  datatype Stage = Capture | Organize | Distill | Express

  /** The string a stage is spelled as in requests and responses. */
  function StageValue(s: Stage): (r: string)
  {
    match s
    case Capture => "capture"
    case Organize => "organize"
    case Distill => "distill"
    case Express => "express"
  }

  /** Position in capture < organize < distill < express. */
  function StageRank(s: Stage): (r: nat)
  {
    match s
    case Capture => 0
    case Organize => 1
    case Distill => 2
    case Express => 3
  }

  lemma StageValueInjective(a: Stage, b: Stage)
    ensures StageValue(a) == StageValue(b) <==> a == b
  {
  }

  /** What the `code_stage` column holds: SQLAlchemy stores an enumeration
      member under its name. */
  function StageName(s: Stage): (r: string)
  {
    match s
    case Capture => "CAPTURE"
    case Organize => "ORGANIZE"
    case Distill => "DISTILL"
    case Express => "EXPRESS"
  }

  /** The stored names are spelled apart from each other and from every
      value string, so either spelling picks out exactly one stage. */
  lemma StageSpellingsDistinct(a: Stage, b: Stage)
    ensures StageName(a) == StageName(b) <==> a == b
    ensures StageName(a) != StageValue(b)
  {
  }

  /** The PARA kind of a container. */
  datatype ContainerType = Project | Area | Resource | Archive

  /** What the `type` column holds: SQLAlchemy stores an enumeration member
      under its name, so `ORDER BY type` compares these strings. */
  function TypeName(t: ContainerType): (r: string)
  {
    match t
    case Project => "PROJECT"
    case Area => "AREA"
    case Resource => "RESOURCE"
    case Archive => "ARCHIVE"
  }

  /** One highlighted range; nothing constrains the three integers
      (the layer is meant to be 2 or 3 but is never checked). */
  datatype HighlightRange = HighlightRange(start: int, end: int, layer: int)

  /** The JSON document stored in a note's `highlights` column: the empty
      object `{}` (the column default) or `{"highlights": [...]}`. */
  datatype HighlightDoc = EmptyDoc | HighlightList(ranges: seq<HighlightRange>)

  datatype Note = Note(
    id: Id,
    title: string,
    content: string,
    contentHtml: Option<string>,
    highlights: HighlightDoc,
    executiveSummary: Option<string>,
    sourceUrl: Option<string>,
    sourceType: Option<string>,
    containerId: Option<Id>,   // None: the note is unfiled
    stage: Stage,
    createdAt: Timestamp,
    updatedAt: Timestamp,
    capturedAt: Timestamp
  )

  datatype Container = Container(
    id: Id,
    name: string,
    kind: ContainerType,       // the `type` column
    description: Option<string>,
    parentId: Option<Id>,      // self-reference; no acyclicity check anywhere
    isActive: bool,
    deadline: Option<Timestamp>,
    status: Option<string>,
    createdAt: Timestamp,
    updatedAt: Timestamp
  )
}
