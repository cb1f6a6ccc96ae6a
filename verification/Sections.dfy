/** The section structure of ffprobe: what a section is called, what kind it is and which sections
    the show functions open inside it. */
module Sections {

  datatype SectionId =
    | Chapter | ChapterTags | Chapters | Error | Format | FormatTags | Frame | Frames | FrameTags
    | LibraryVersion | LibraryVersions | Packet | Packets | PacketsAndFrames
    | ProgramStreamDisposition | ProgramStreamTags | Program | ProgramStreams | ProgramStream | ProgramTags
    | ProgramVersion | Programs | Root | Stream | StreamDisposition | Streams | StreamTags | Subtitle

  datatype Flag = Wrapper | Array | Object

  function Name(id: SectionId): string {
    match id
    case Chapter => "chapter"
    case ChapterTags => "tags"
    case Chapters => "chapters"
    case Error => "error"
    case Format => "format"
    case FormatTags => "tags"
    case Frame => "frame"
    case Frames => "frames"
    case FrameTags => "tags"
    case LibraryVersion => "library_version"
    case LibraryVersions => "library_versions"
    case Packet => "packet"
    case Packets => "packets"
    case PacketsAndFrames => "packets_and_frames"
    case ProgramStreamDisposition => "disposition"
    case ProgramStreamTags => "tags"
    case Program => "program"
    case ProgramStreams => "streams"
    case ProgramStream => "stream"
    case ProgramTags => "tags"
    case ProgramVersion => "program_version"
    case Programs => "programs"
    case Root => "root"
    case Stream => "stream"
    case StreamDisposition => "disposition"
    case Streams => "streams"
    case StreamTags => "tags"
    case Subtitle => "subtitle"
  }

  function Kind(id: SectionId): Flag {
    match id
    case Root => Wrapper
    case Chapters => Array
    case Frames => Array
    case LibraryVersions => Array
    case Packets => Array
    case PacketsAndFrames => Array
    case ProgramStreams => Array
    case Programs => Array
    case Streams => Array
    case _ => Object
  }

  /** The children the table lists, and those that are opened without being listed:
      packets_and_frames in the root, frames and subtitles in packets_and_frames. */
  function Children(id: SectionId): set<SectionId> {
    match id
    case Root => {Chapters, Format, Frames, Programs, Streams, Packets, PacketsAndFrames, Error, ProgramVersion,
                  LibraryVersions}
    case Chapters => {Chapter}
    case Chapter => {ChapterTags}
    case Format => {FormatTags}
    case Frames => {Frame, Subtitle}
    case Frame => {FrameTags}
    case LibraryVersions => {LibraryVersion}
    case Packets => {Packet}
    case PacketsAndFrames => {Packet, Frame, Subtitle}
    case Programs => {Program}
    case Program => {ProgramTags, ProgramStreams}
    case ProgramStreams => {ProgramStream}
    case ProgramStream => {ProgramStreamDisposition, ProgramStreamTags}
    case Streams => {Stream}
    case Stream => {StreamDisposition, StreamTags}
    case _ => {}
  }

  /** How many levels of sections there can be below a section. */
  function Height(id: SectionId): nat {
    match id
    case Root => 5
    case Programs => 4
    case Program => 3
    case ProgramStreams => 2
    case ProgramStream => 1
    case Chapters => 2
    case Chapter => 1
    case Format => 1
    case Frames => 2
    case Frame => 1
    case LibraryVersions => 1
    case Packets => 1
    case PacketsAndFrames => 2
    case Streams => 2
    case Stream => 1
    case _ => 0
  }

  /** Sections are never nested in a cycle, arrays are never inside arrays and only the root is a
      wrapper. */
  lemma TableShape(id: SectionId, child: SectionId)
    requires child in Children(id)
    ensures Height(child) < Height(id)
    ensures Kind(id).Array? ==> Kind(child).Object?
    ensures !Kind(child).Wrapper?
  {
  }

  // The length and the second letter of a name in one number, which tells siblings apart.
  function Mark(id: SectionId): nat {
    match id
    case Chapter => 7104
    case ChapterTags => 4097
    case Chapters => 8104
    case Error => 5114
    case Format => 6111
    case FormatTags => 4097
    case Frame => 5114
    case Frames => 6114
    case FrameTags => 4097
    case LibraryVersion => 15105
    case LibraryVersions => 16105
    case Packet => 6097
    case Packets => 7097
    case PacketsAndFrames => 18097
    case ProgramStreamDisposition => 11105
    case ProgramStreamTags => 4097
    case Program => 7114
    case ProgramStreams => 7116
    case ProgramStream => 6116
    case ProgramTags => 4097
    case ProgramVersion => 15114
    case Programs => 8114
    case Root => 4111
    case Stream => 6116
    case StreamDisposition => 11105
    case Streams => 7116
    case StreamTags => 4097
    case Subtitle => 8117
  }

  lemma MarkOf(id: SectionId)
    ensures |Name(id)| >= 2 && 1000 * |Name(id)| + Name(id)[1] as int == Mark(id)
  {
  }

  /** Two children of one section never share a name. */
  lemma ChildNamesDiffer(id: SectionId, child: SectionId, other: SectionId)
    requires child in Children(id) && other in Children(id) && child != other
    ensures Name(child) != Name(other)
  {
    MarkOf(child);
    MarkOf(other);
    ChildMarksDiffer(id, child, other);
  }

  lemma ChildMarksDiffer(id: SectionId, child: SectionId, other: SectionId)
    requires child in Children(id) && other in Children(id) && child != other
    ensures Mark(child) != Mark(other)
  {
    if id.Root? {
      RootMarksDiffer(child, other);
    }
  }

  lemma RootMarksDiffer(child: SectionId, other: SectionId)
    requires child in Children(Root) && other in Children(Root) && child != other
    ensures Mark(child) != Mark(other)
  {
  }

  /** A struct section, as far as the writers look at it. */
  datatype SectionDef = SectionDef(id: SectionId, name: string, kind: Flag)

  /** The table entry of a section. */
  function Def(id: SectionId): SectionDef {
    SectionDef(id, Name(id), Kind(id))
  }

  datatype Value = Int(n: int) | Str(s: string)

  /** What a section contains, in order, as a first-child next-sibling forest. */
  datatype Forest =
    | Done
    | Item(key: string, value: Value, next: Forest)
    | Section(def: SectionDef, body: Forest, next: Forest)

  /** The forest follows the section structure inside an open section `parent`: it opens only
      children of `parent`, and prints items only in object sections. */
  predicate Follows(parent: SectionId, f: Forest)
    decreases f
  {
    match f
    case Done => true
    case Item(_, _, next) => Kind(parent).Object? && Follows(parent, next)
    case Section(def, body, next) =>
      def == Def(def.id) && def.id in Children(parent) && Follows(def.id, body) && Follows(parent, next)
  }

  // The names of the sections that tag their elements with a type need no escaping.
  predicate Plain(s: string) {
    forall i :: 0 <= i < |s| ==> s[i] >= ' ' && s[i] != '"' && s[i] != '\\'
  }

  /** The part of the section structure the writers rely on. */
  predicate Shaped(parent: SectionDef, f: Forest)
    decreases f
  {
    match f
    case Done => true
    case Item(_, _, next) => parent.kind.Object? && Shaped(parent, next)
    case Section(def, body, next) =>
      && !def.kind.Wrapper? && (parent.kind.Array? ==> def.kind.Object?)
      && (parent.id.PacketsAndFrames? ==> Plain(def.name) && (def.id.Packet? <==> def.name == "packet"))
      && (def.id.PacketsAndFrames? ==> def.kind.Array?)
      && Shaped(def, body) && Shaped(parent, next)
  }

  lemma {:induction false} FollowsShaped(parent: SectionDef, f: Forest)
    requires Follows(parent.id, f) && parent.kind == Kind(parent.id)
    ensures Shaped(parent, f)
    decreases f
  {
    match f
    case Done =>
    case Item(_, _, next) => FollowsShaped(parent, next);
    case Section(def, body, next) =>
      TableShape(parent.id, def.id);
      if parent.id.PacketsAndFrames? {
        PacketNames(def.id);
      }
      FollowsShaped(def, body);
      FollowsShaped(parent, next);
  }

  lemma PacketNames(id: SectionId)
    requires id.Packet? || id.Frame? || id.Subtitle?
    ensures Plain(Name(id)) && (id.Packet? <==> Name(id) == "packet")
  {
    MarkOf(id);
  }

  function Max(a: nat, b: nat): nat {
    if a > b then a else b
  }

  /** How many levels of sections a forest opens. */
  function Depth(f: Forest): nat {
    match f
    case Done => 0
    case Item(_, _, next) => Depth(next)
    case Section(_, body, next) => Max(1 + Depth(body), Depth(next))
  }

  /** Output that follows the structure never has more levels open than the table is high, so with
      the root at most 6 of the SECTION_MAX_NB_LEVELS (10) are used. */
  lemma {:induction false} DepthBounded(parent: SectionId, f: Forest)
    requires Follows(parent, f)
    ensures Depth(f) <= Height(parent) <= 5
    decreases f
  {
    match f
    case Done =>
    case Item(_, _, next) => DepthBounded(parent, next);
    case Section(def, body, next) =>
      TableShape(parent, def.id);
      DepthBounded(def.id, body);
      DepthBounded(parent, next);
  }
}
