/** The colour of the "Notifiable to DVLA?" line: red when the entry's
    notifiable text, lower-cased, is exactly "yes", green otherwise. */
module Notification {
  import opened Catalog
  import opened Results

  datatype Colour = Red | Green

  /** `c.lower()` for one character (ASCII letters only). */
  function LowerChar(c: char): char {
    if 'A' <= c <= 'Z' then (c as int + 32) as char else c
  }

  /** `s.lower()` (ASCII letters only). */
  function Lower(s: string): (r: string)
    ensures |r| == |s|
  {
    if s == [] then [] else [LowerChar(s[0])] + Lower(s[1..])
  }

  lemma {:induction false} LowerAt(s: string, i: int)
    requires 0 <= i < |s|
    ensures Lower(s)[i] == LowerChar(s[i])
  {
    if i > 0 {
      LowerAt(s[1..], i - 1);
    }
  }

  /** The colour rule as the script writes it. */
  function NotifColour(notifiable: string): Colour {
    if Lower(notifiable) == "yes" then Red else Green
  }

  /** Red exactly for the eight spellings of "yes" in upper and lower case. */
  lemma RedExactlyForYes(s: string)
    ensures NotifColour(s) == Red <==>
      |s| == 3 && (s[0] == 'y' || s[0] == 'Y') && (s[1] == 'e' || s[1] == 'E') && (s[2] == 's' || s[2] == 'S')
  {
    if |s| == 3 {
      LowerAt(s, 0);
      LowerAt(s, 1);
      LowerAt(s, 2);
      assert Lower(s) == [LowerChar(s[0]), LowerChar(s[1]), LowerChar(s[2])];
    }
  }

  /** On the shipped table the rule never fires: every condition is shown green. */
  lemma ShippedAllGreen()
    ensures forall i :: 0 <= i < |DvlaData| ==> NotifColour(DvlaData[i].1.notifiable) == Green
  {
    forall i | 0 <= i < |DvlaData|
      ensures NotifColour(DvlaData[i].1.notifiable) == Green
    {
      RedExactlyForYes(DvlaData[i].1.notifiable);
    }
  }

  /** In particular epilepsy, whose notifiable text is "Yes.", is shown green. */
  lemma EpilepsyShownGreen()
    ensures Get(DvlaData, "Epilepsy (First Seizure)") == Ok(DvlaData[2].1)
    ensures DvlaData[2].1.notifiable == "Yes."
    ensures NotifColour(DvlaData[2].1.notifiable) == Green
  {
    ShippedOptions();
    GetAt(DvlaData, 2);
    RedExactlyForYes("Yes.");
  }

  /** The rule the script evidently means: "yes", optionally followed by a full stop. */
  function IntendedColour(notifiable: string): Colour {
    var l := Lower(notifiable);
    if l == "yes" || l == "yes." then Red else Green
  }

  /** The intended rule keeps every red of the written rule and differs from it
      only on texts that end in a full stop. */
  lemma IntendedExtendsWritten(s: string)
    ensures NotifColour(s) == Red ==> IntendedColour(s) == Red
    ensures (|s| == 0 || s[|s| - 1] != '.') ==> IntendedColour(s) == NotifColour(s)
  {
    if |s| == 4 {
      LowerAt(s, 3);
    }
  }

  /** The intended rule is red exactly for "yes" in any case, with or without a full stop. */
  lemma IntendedRedExactly(s: string)
    ensures IntendedColour(s) == Red <==>
      (|s| == 3 || (|s| == 4 && s[3] == '.'))
      && (s[0] == 'y' || s[0] == 'Y') && (s[1] == 'e' || s[1] == 'E') && (s[2] == 's' || s[2] == 'S')
  {
    RedExactlyForYes(s);
    if |s| == 4 {
      LowerAt(s, 0);
      LowerAt(s, 1);
      LowerAt(s, 2);
      LowerAt(s, 3);
      assert Lower(s) == [LowerChar(s[0]), LowerChar(s[1]), LowerChar(s[2]), LowerChar(s[3])];
    }
  }

  /** On the shipped table the intended rule marks epilepsy, and only epilepsy, red. */
  lemma ShippedIntendedColours()
    ensures forall i :: 0 <= i < |DvlaData| ==>
      (IntendedColour(DvlaData[i].1.notifiable) == Red <==> DvlaData[i].0 == "Epilepsy (First Seizure)")
  {
    forall i | 0 <= i < |DvlaData|
      ensures IntendedColour(DvlaData[i].1.notifiable) == Red <==> DvlaData[i].0 == "Epilepsy (First Seizure)"
    {
      IntendedRedExactly(DvlaData[i].1.notifiable);
    }
  }
}
