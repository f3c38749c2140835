/** `DVLA_DATA`, the hand-written table of conditions, and the drop-down built
    from it. A Python dict keeps its keys in insertion order, so the table is an
    ordered sequence of (condition, entry) pairs with distinct conditions. */
module Catalog {
  import opened Results

  /** The three fields every condition carries. */
  datatype Entry = Entry(group1: string, group2: string, notifiable: string)

  type Table = seq<(string, Entry)>

  /** The table as the script defines it, in its order. */
  const DvlaData: Table := [
    ("TIA / Stroke", Entry(
      "Must not drive for 1 month. May resume after 1 month if no residual deficit.",
      "Licence refused or revoked for 1 year. Can be relicensed after 1 year if stable.",
      "Only if multiple TIAs over short period or residual deficit after 1 month.")),
    ("Syncope (Simple Faint)", Entry(
      "No restriction if there is an identifiable prodrome and no recurrence.",
      "No restriction unless recurring or no prodrome.",
      "No.")),
    ("Epilepsy (First Seizure)", Entry(
      "Must not drive for 6 months or 12 months depending on risk factors.",
      "Must not drive for 5 years. Must be seizure-free without medication for 10 years.",
      "Yes.")),
    ("Myocardial Infarction (STEMI/NSTEMI)", Entry(
      "Must not drive for 1 week if successfully treated with primary PCI.",
      "Must not drive for at least 6 weeks. Requires LVEF > 40%.",
      "No (for Group 1)."))
  ]

  /** The first, non-condition option of the drop-down. */
  const Placeholder := "Select a condition..."

  /** `list(t.keys())`. */
  function Keys(t: Table): seq<string> {
    if t == [] then [] else [t[0].0] + Keys(t[1..])
  }

  /** No condition is listed twice, as in any dict. */
  predicate IsDict(t: Table) {
    forall i, j :: 0 <= i < j < |t| ==> t[i].0 != t[j].0
  }

  /** `["Select a condition..."] + list(t.keys())`. */
  function Options(t: Table): seq<string> {
    [Placeholder] + Keys(t)
  }

  /** `t[key]`: the entry of `key`, or `KeyError`. */
  function Get(t: Table, key: string): (r: Result<Entry, PyError>)
    ensures r.Ok? <==> key in Keys(t)
    ensures r.Ok? ==> exists i :: 0 <= i < |t| && t[i] == (key, r.value)
    ensures r.Err? ==> r.error == KeyError
  {
    if t == [] then Err(KeyError)
    else if t[0].0 == key then Ok(t[0].1)
    else
      var r := Get(t[1..], key);
      assert r.Ok? ==> exists i :: 0 <= i < |t| && t[i] == (key, r.value) by {
        if r.Ok? {
          var i :| 0 <= i < |t[1..]| && t[1..][i] == (key, r.value);
          assert t[i + 1] == (key, r.value);
        }
      }
      r
  }

  /** The keys are the conditions, position by position. */
  lemma {:induction false} KeysAt(t: Table)
    ensures |Keys(t)| == |t|
    ensures forall i :: 0 <= i < |t| ==> Keys(t)[i] == t[i].0
  {
    if t != [] {
      KeysAt(t[1..]);
    }
  }

  /** The options are the placeholder followed by every condition in table order. */
  lemma OptionsLayout(t: Table)
    ensures |Options(t)| == |t| + 1 && Options(t)[0] == Placeholder
    ensures forall i :: 0 <= i < |t| ==> Options(t)[i + 1] == t[i].0
  {
    KeysAt(t);
  }

  /** In a dict, every condition's own name finds its own entry. */
  lemma {:induction false} GetAt(t: Table, i: int)
    requires IsDict(t) && 0 <= i < |t|
    ensures Get(t, t[i].0) == Ok(t[i].1)
  {
    if i > 0 {
      assert t[1..][i - 1] == t[i];
      GetAt(t[1..], i - 1);
    }
  }

  /** Every option other than the placeholder is a key, so indexing with it cannot fail. */
  lemma SelectionResolves(t: Table, choice: string)
    requires choice in Options(t) && choice != Placeholder
    ensures Get(t, choice).Ok?
  {
  }

  /** The drop-down of the shipped table, in full. */
  lemma ShippedOptions()
    ensures IsDict(DvlaData)
    ensures Options(DvlaData) == [Placeholder, "TIA / Stroke", "Syncope (Simple Faint)",
                                  "Epilepsy (First Seizure)", "Myocardial Infarction (STEMI/NSTEMI)"]
    ensures Placeholder !in Keys(DvlaData)
  {
    KeysAt(DvlaData);
    assert Keys(DvlaData) == ["TIA / Stroke", "Syncope (Simple Faint)",
                              "Epilepsy (First Seizure)", "Myocardial Infarction (STEMI/NSTEMI)"];
  }

  /** Every shipped entry fills in all three fields. */
  lemma ShippedEntriesComplete()
    ensures forall i :: 0 <= i < |DvlaData| ==>
      DvlaData[i].1.group1 != [] && DvlaData[i].1.group2 != [] && DvlaData[i].1.notifiable != []
  {
  }
}
