/** Which of the status codes of `server/ams-truck-status-labels.ts` the declined-repair check counts. */
module DeclinedCodes {
  import opened AmsCache
  import opened DeclinedCheck
  import opened Text

  /** Labels begin and end with letters, and no other one is as long as this and begins like it. */
  lemma LabelShapes(code: string)
    requires code in LABELS
    ensures var s := LABELS[code]; s != "" && 'A' <= s[0] <= 'z' && 'A' <= s[|s| - 1] <= 'z'
    ensures code != "5" ==> |LABELS[code]| != 15 || LABELS[code][0] == 'S'
  {
  }

  lemma DeclinedLabel(s: string)
    requires s == "Declined Repair"
    ensures Lower(s) == "declined repair"
  {
    LowerAt(s, 0);
    forall i | 0 <= i < |s|
      ensures Lower(s)[i] == "declined repair"[i]
    {
      LowerAt(s, i);
    }
  }

  /** Of the codes AMS uses for a status, 5 is the one whose label is declined. */
  lemma DeclinedCode(code: string)
    requires code in LABELS
    ensures IsDeclined(Some(LABELS[code])) <==> code == "5"
  {
    var given := LABELS[code];
    LabelShapes(code);
    TrimKeeps(given);
    LowerAt(given, 0);
    if code == "5" {
      DeclinedLabel(given);
    }
  }
}
