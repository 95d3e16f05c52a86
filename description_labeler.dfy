/**
 * description_labeler.py: the labelling back end (DescriptionLabeler: a
 * cursor over the descriptions, one label per description, a category
 * list), the category list and completion filter of the autocomplete
 * entry, and the enter-label protocol of the labelling window.
 *
 * Python lists that several objects hold are modelled by reference: the
 * category list is a CategoryList object, so the autocomplete entry and the
 * labeler can share one list exactly as the window sets them up. Widgets
 * (listbox placement, focus, key bindings) are reduced to the state that
 * decides what the user sees: the entry's text, its completion list, and
 * whether the completion listbox is open.
 */
module DescriptionLabeling {
  import opened Seqs
  import opened Text
  import opened Labeling

  /** A Python list of category names, held by reference. */
  class CategoryList {
    var items: seq<string>

    constructor (items: seq<string>)
      ensures this.items == items
    {
      this.items := items;
    }
  }

  /** label_list.append(x) guarded by "if x not in label_list". */
  lemma AddOnce(list: seq<string>, x: string)
    ensures Extend(list, [x]) == if x in list then list else list + [x]
  {
    ExtendAppend(list, [], x);
    assert [] + [x] == [x];
  }

  /**
   * Adding a category keeps the list duplicate-free, puts the category in
   * it, changes nothing when it is already there, and adding it a second
   * time changes nothing more.
   */
  lemma AddOnceSpec(list: seq<string>, x: string)
    ensures NoDup(list) ==> NoDup(Extend(list, [x]))
    ensures x in Extend(list, [x])
    ensures x in list ==> Extend(list, [x]) == list
    ensures Extend(Extend(list, [x]), [x]) == Extend(list, [x])
  {
    AddOnce(list, x);
    AddOnce(Extend(list, [x]), x);
    ExtendSpec(list, [x]);
  }

  /** get_current_description: the description under the cursor, "" once the cursor is past the end. */
  function CurrentDescription(descriptions: seq<string>, current: nat): (d: string)
    ensures d == "" <==> current >= |descriptions| || descriptions[current] == ""
    ensures current < |descriptions| ==> d == descriptions[current]
  {
    if current < |descriptions| then descriptions[current] else ""
  }

  class DescriptionLabeler {
    var descriptions: seq<string>
    var labels: seq<string>
    var current: nat
    var categories: CategoryList

    /** One label per description; the cursor never passes the end; nothing at or after it is labelled yet. */
    ghost predicate Valid()
      reads this
    {
      |labels| == |descriptions| && current <= |descriptions| &&
      forall i :: current <= i < |labels| ==> labels[i] == ""
    }

    /**
     * __init__: every label empty and the cursor at the start. The category
     * list is the one supplied when it is non-empty, and otherwise the
     * list held by the class itself (classDefault), shared by every
     * labeler built without one.
     */
    constructor (descriptions: seq<string>, categories: CategoryList, classDefault: CategoryList)
      ensures Valid()
      ensures this.descriptions == descriptions && current == 0
      ensures |labels| == |descriptions| && forall i :: 0 <= i < |labels| ==> labels[i] == ""
      ensures this.categories == if categories.items != [] then categories else classDefault
    {
      this.descriptions := descriptions;
      labels := seq(|descriptions|, _ => "");
      current := 0;
      this.categories := if categories.items != [] then categories else classDefault;
    }

    function GetCurrentDescription(): (d: string)
      reads this
      ensures d == CurrentDescription(descriptions, current)
    {
      CurrentDescription(descriptions, current)
    }

    /**
     * label: give the description under the cursor its label and move on.
     * Past the end the assignment fails (IndexError) and nothing changes.
     */
    method Label(category: string) returns (ok: bool)
      requires Valid()
      modifies this`labels, this`current
      ensures Valid()
      ensures ok <==> old(current) < |descriptions|
      ensures ok ==> labels == old(labels)[old(current) := category] && current == old(current) + 1
      ensures !ok ==> labels == old(labels) && current == old(current)
    {
      if current >= |labels| {
        return false;
      }
      labels := labels[current := category];
      current := current + 1;
      ok := true;
    }

    /** get_labels: one label per description, "" for every description not labelled yet. */
    function GetLabels(): (r: seq<string>)
      requires Valid()
      reads this
      ensures |r| == |descriptions|
      ensures forall i :: current <= i < |r| ==> r[i] == ""
    {
      labels
    }

    function GetCategories(): (r: seq<string>)
      reads this, categories
      ensures r == categories.items
    {
      categories.items
    }

    /** get_labeled_descriptions: zip(labels, descriptions), label first, one pair per description. */
    function GetLabeledDescriptions(): (r: seq<(string, string)>)
      requires Valid()
      reads this
      ensures |r| == |descriptions|
      ensures forall i :: 0 <= i < |r| ==> r[i].0 == labels[i] && r[i].1 == descriptions[i]
    {
      var ls, ds := labels, descriptions;
      seq(|ls|, i requires 0 <= i < |ls| => (ls[i], ds[i]))
    }
  }

  /** A fresh labeler pairs every description with the empty label. */
  lemma FreshLabeledDescriptions(l: DescriptionLabeler)
    requires l.Valid() && l.current == 0
    ensures forall i :: 0 <= i < |l.descriptions| ==> l.GetLabeledDescriptions()[i] == ("", l.descriptions[i])
  {
  }

  class AutocompleteEntry {
    var labelList: CategoryList
    var text: string
    var completeList: seq<string>
    var listboxOpen: bool

    /** __init__: empty text, no completions, no listbox. */
    constructor (labelList: CategoryList)
      ensures this.labelList == labelList && text == "" && completeList == [] && !listboxOpen
    {
      this.labelList := labelList;
      text := "";
      completeList := [];
      listboxOpen := false;
    }

    method SetLabelList(labelList: CategoryList)
      modifies this`labelList
      ensures this.labelList == labelList
    {
      this.labelList := labelList;
    }

    /** add_label: append the label unless the list already holds it. */
    method AddLabel(category: string)
      modifies labelList
      ensures labelList.items == Extend(old(labelList.items), [category])
    {
      AddOnce(labelList.items, category);
      if category !in labelList.items {
        labelList.items := labelList.items + [category];
      }
    }

    /**
     * changed: with text in the entry, the completions are the listed
     * labels that the text starts, case-insensitively, in list order; the
     * listbox shows them when there are some and is closed otherwise. An
     * empty entry closes the listbox.
     */
    method Changed()
      modifies this`completeList, this`listboxOpen
      ensures listboxOpen <==> text != "" && Completions(labelList.items, text) != []
      ensures completeList == if listboxOpen then Completions(labelList.items, text) else old(completeList)
    {
      if text != "" {
        var matches := Completions(labelList.items, text);
        if matches != [] {
          completeList := matches;
          listboxOpen := true;
        } else {
          listboxOpen := false;
        }
      } else {
        listboxOpen := false;
      }
    }

    function Get(): (r: string)
      reads this
      ensures r == text
    {
      text
    }

    /** set: replace the text; the variable trace then runs changed. */
    method Set(value: string)
      modifies this`text, this`completeList, this`listboxOpen
      ensures text == value
      ensures listboxOpen <==> value != "" && Completions(labelList.items, value) != []
      ensures completeList == if listboxOpen then Completions(labelList.items, value) else old(completeList)
    {
      text := value;
      Changed();
    }
  }

  class LabelerGUI {
    var labeler: DescriptionLabeler
    var entry: AutocompleteEntry
    var shown: string
    var complete: bool

    /** The entry offers exactly the labeler's category list: one list, held by both. */
    ghost predicate Valid()
      reads this, labeler, entry
    {
      labeler.Valid() && entry.labelList == labeler.categories
    }

    /** __init__: an entry over the labeler's own category list, then update_description. */
    constructor (labeler: DescriptionLabeler)
      requires labeler.Valid()
      ensures Valid() && fresh(entry) && this.labeler == labeler && !complete
      ensures entry.text == "" && !entry.listboxOpen
      ensures shown == labeler.GetCurrentDescription()
    {
      this.labeler := labeler;
      entry := new AutocompleteEntry(labeler.categories);
      shown := "";
      complete := false;
      new;
      var _ := UpdateDescription();
    }

    /** update_description: show the current description; false when it reads "". */
    method UpdateDescription() returns (more: bool)
      modifies this`shown
      ensures more <==> labeler.GetCurrentDescription() != ""
      ensures shown == if more then labeler.GetCurrentDescription() else old(shown)
    {
      var description := labeler.GetCurrentDescription();
      if description != "" {
        shown := description;
        more := true;
      } else {
        more := false;
      }
    }

    /**
     * enter_label: the entered text joins the shared category list unless
     * it is there already; then it labels the current description and the
     * cursor moves on, the entry is cleared, and labelling is reported
     * complete exactly when the new current description reads "". With the
     * cursor already past the end the label assignment fails (IndexError)
     * after the category list has grown, before the entry or the window
     * changes.
     */
    method EnterLabel() returns (ok: bool)
      requires Valid() && !complete
      modifies this, entry, labeler, labeler.categories
      ensures Valid() && labeler == old(labeler) && entry == old(entry)
      ensures labeler.categories == old(labeler.categories)
      ensures labeler.categories.items == Extend(old(labeler.categories.items), [old(entry.text)])
      ensures ok <==> old(labeler.current) < |labeler.descriptions|
      ensures labeler.descriptions == old(labeler.descriptions)
      ensures ok ==> (labeler.labels == old(labeler.labels)[old(labeler.current) := old(entry.text)] &&
        labeler.current == old(labeler.current) + 1 &&
        entry.text == "" && !entry.listboxOpen &&
        (complete <==> CurrentDescription(labeler.descriptions, labeler.current) == "") &&
        (!complete ==> shown == CurrentDescription(labeler.descriptions, labeler.current)))
      ensures !ok ==> labeler.labels == old(labeler.labels) && labeler.current == old(labeler.current) && !complete
      ensures !ok ==> entry.text == old(entry.text) && entry.listboxOpen == old(entry.listboxOpen) && shown == old(shown)
      ensures complete ==> shown == "Labels complete!"
    {
      var l := entry.Get();
      if l !in entry.labelList.items {
        entry.AddLabel(l);
      }
      AddOnce(old(labeler.categories.items), l);
      // The labeler's own check finds the label already there: it holds the same list.
      var categories := labeler.GetCategories();
      labeler.categories.items := if l !in categories then categories + [l] else categories;
      ok := labeler.Label(entry.Get());
      if !ok {
        return;
      }
      entry.Set("");
      var more := UpdateDescription();
      if !more {
        OnComplete();
      }
    }

    /** on_complete: the button and entry go away and the window says labelling is complete. */
    method OnComplete()
      modifies this`complete, this`shown
      ensures complete && shown == "Labels complete!"
    {
      complete := true;
      shown := "Labels complete!";
    }
  }
}
