/** The frame around an open section: its title, and the project
    screenshot panel shown beside the Projects content. */
module Section {
  import opened Js
  import opened Projects

  /** The five section ids and the titles they are shown under. */
  const KnownIds: seq<string> := ["home", "about", "projects", "resume", "contact"]
  const Titles: seq<string> := ["Home", "About", "Projects", "Resume", "Contact"]

  const Placeholder := "Project Screenshot Coming Soon"

  /** `getSectionTitle(sectionId)`, a switch with an empty default. */
  function SectionTitle(sectionId: string): (title: string)
    ensures forall i :: 0 <= i < |KnownIds| && KnownIds[i] == sectionId ==> title == Titles[i]
    ensures sectionId !in KnownIds ==> title == ""
  {
    match sectionId
    case "home" => "Home"
    case "about" => "About"
    case "projects" => "Projects"
    case "resume" => "Resume"
    case "contact" => "Contact"
    case _ => ""
  }

  /** A section has a title exactly when its id is one of the five. */
  lemma TitleNonEmptyIffKnown(sectionId: string)
    ensures SectionTitle(sectionId) != "" <==> sectionId in KnownIds
  {
    if sectionId in KnownIds {
      var i :| 0 <= i < |KnownIds| && KnownIds[i] == sectionId;
      assert Titles[i] != "";
    }
  }

  /** `sectionId === 'projects' && projectData` used as a condition. */
  predicate HasProject(sectionId: string, projectData: Option<Project>) {
    sectionId == "projects" && projectData.Some?
  }

  /** The text on the screenshot panel. */
  function ImageLabel(p: Project): (text: string)
    ensures HasImage(p) ==> text == p.title
    ensures !HasImage(p) ==> text == Placeholder
  {
    if HasImage(p) then p.title else Placeholder
  }

  /** What the section renders apart from its children: the title, the
      screenshot panel's label if that panel is shown, and the content
      panel's `$hasProject` flag. */
  datatype Frame = Frame(title: string, imagePanel: Option<string>, contentHasProject: bool)

  function FrameOf(sectionId: string, projectData: Option<Project>): (f: Frame)
    ensures f.title == SectionTitle(sectionId)
    ensures f.imagePanel.Some? <==> sectionId == "projects" && projectData.Some?
    ensures f.contentHasProject <==> f.imagePanel.Some?
    ensures f.imagePanel.Some? ==> f.imagePanel.value == ImageLabel(projectData.value)
  {
    var title := SectionTitle(sectionId);
    if HasProject(sectionId, projectData) then
      Frame(title, Some(ImageLabel(projectData.value)), true)
    else
      Frame(title, None, false)
  }

  /** With a catalogue record as project data, the Projects section shows
      the screenshot panel labelled with that project's title. */
  lemma CatalogueRecordsShowTitle(p: Project)
    requires p in Catalogue()
    ensures FrameOf("projects", Some(p)) == Frame("Projects", Some(p.title), true)
  {
    CatalogueWellFormed();
  }
}
