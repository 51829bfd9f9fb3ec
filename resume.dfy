/** The Resume panel: four tab buttons over one `activeTab` id, and one
    conditionally rendered panel per tab. */
module Resume {

  /** A `sections` entry; `caption` is its `label` field. */
  datatype Tab = Tab(id: string, caption: string)

  /** The `sections` table that the tab buttons are rendered from. */
  const Sections: seq<Tab> := [Tab("experience", "Experience"), Tab("education", "Education"),
                               Tab("skills", "Skills"), Tab("awards", "Awards")]

  const InitialTab := "experience"

  predicate IsTabId(id: string) {
    exists i :: 0 <= i < |Sections| && Sections[i].id == id
  }

  /** The keys of the panels that `activeTab === key && <ResumeSection .../>`
      renders, in the order they appear. */
  function RenderedPanels(activeTab: string): (shown: seq<string>)
    ensures |shown| <= 1
    ensures forall k :: k in shown ==> k == activeTab
  {
    (if activeTab == "experience" then ["experience"] else []) +
    (if activeTab == "education" then ["education"] else []) +
    (if activeTab == "skills" then ["skills"] else []) +
    (if activeTab == "awards" then ["awards"] else [])
  }

  /** When the active tab is one of the four, exactly its panel renders;
      otherwise none does. */
  lemma ExactlyOnePanel(activeTab: string)
    ensures IsTabId(activeTab) ==> RenderedPanels(activeTab) == [activeTab]
    ensures !IsTabId(activeTab) ==> RenderedPanels(activeTab) == []
  {
    assert Sections[0].id == "experience" && Sections[1].id == "education";
    assert Sections[2].id == "skills" && Sections[3].id == "awards";
  }

  /** The `$active` flag of the `i`-th tab button. */
  function ButtonActive(activeTab: string, i: nat): (active: bool)
    requires i < |Sections|
    ensures active <==> Sections[i].id == activeTab
  {
    activeTab == Sections[i].id
  }

  /** For an active tab among the four, exactly one button is marked
      active. */
  lemma ExactlyOneButtonActive(activeTab: string)
    requires IsTabId(activeTab)
    ensures exists i :: 0 <= i < |Sections| && ButtonActive(activeTab, i)
    ensures forall i, j :: (0 <= i < |Sections| && 0 <= j < |Sections| &&
      ButtonActive(activeTab, i) && ButtonActive(activeTab, j)) ==> i == j
  {
    var k :| 0 <= k < |Sections| && Sections[k].id == activeTab;
    assert ButtonActive(activeTab, k);
  }

  class ResumeComponent {
    var activeTab: string

    predicate Valid()
      reads this
    {
      IsTabId(activeTab)
    }

    constructor ()
      ensures activeTab == InitialTab
      ensures Valid()
    {
      activeTab := InitialTab;
      assert Sections[0].id == InitialTab;
    }

    /** `onClick={() => setActiveTab(section.id)}` on the `i`-th button. */
    method ClickTab(i: nat)
      requires i < |Sections|
      modifies this
      ensures activeTab == Sections[i].id
      ensures Valid()
    {
      activeTab := Sections[i].id;
    }

    /** The panel on screen. */
    function Panel(): (key: string)
      reads this
      requires Valid()
      ensures RenderedPanels(activeTab) == [key] && key == activeTab
    {
      ExactlyOnePanel(activeTab);
      activeTab
    }
  }
}
