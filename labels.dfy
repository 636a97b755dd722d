/**
 * The status-label classification of `update_label_styles`: the emergency
 * shutdown label turns red exactly when its value is "Activado", and the
 * system-state label is coloured by keyword, the critical keywords
 * (red) taking priority over the warning keywords (orange), anything else
 * nominal (light green). The style sheets themselves are presentation.
 */
module Labels {

  datatype Severity = Critical | Warning | Nominal

  const CriticalWords: seq<string> := ["Alivio", "Purga", "Emergencia"]
  const WarningWords: seq<string> := ["Advertencia", "Recuperación", "Precalentamiento"]

  /** Python's `w in s` on strings: `w` is a contiguous piece of `s`. */
  ghost predicate Occurs(w: string, s: string) {
    exists i :: OccursAt(w, s, i)
  }

  ghost predicate OccursAt(w: string, s: string, i: int) {
    0 <= i && i + |w| <= |s| && s[i..i + |w|] == w
  }

  /** An occurrence is at the front, or further on in the rest of the text. */
  lemma OccursStep(w: string, s: string)
    ensures Occurs(w, s) <==> w <= s || (s != [] && Occurs(w, s[1..]))
  {
    if w <= s {
      assert OccursAt(w, s, 0);
    } else if s == [] {
      forall i ensures !OccursAt(w, s, i) { }
    } else {
      forall i | OccursAt(w, s[1..], i)
        ensures OccursAt(w, s, i + 1)
      {
        assert s[i + 1..i + 1 + |w|] == s[1..][i..i + |w|];
      }
      assert !OccursAt(w, s, 0);
      forall i | OccursAt(w, s, i) && i > 0
        ensures OccursAt(w, s[1..], i - 1)
      {
        assert s[1..][i - 1..i - 1 + |w|] == s[i..i + |w|];
      }
    }
  }

  /** The substring test `w in s`, scanning `s` from the left. */
  function Contains(s: string, w: string): (r: bool)
    ensures r <==> Occurs(w, s)
  {
    OccursStep(w, s);
    w <= s || (s != [] && Contains(s[1..], w))
  }

  /** Python's `any(word in s for word in words)`. */
  function AnyIn(words: seq<string>, s: string): (r: bool)
    ensures r <==> exists w :: w in words && Occurs(w, s)
  {
    if words == [] then false
    else
      assert forall w :: w in words <==> w == words[0] || w in words[1..];
      Contains(s, words[0]) || AnyIn(words[1..], s)
  }

  /** Some critical keyword occurs in the text. */
  ghost predicate HasCritical(estado: string) {
    exists w :: w in CriticalWords && Occurs(w, estado)
  }

  /** Some warning keyword occurs in the text. */
  ghost predicate HasWarning(estado: string) {
    exists w :: w in WarningWords && Occurs(w, estado)
  }

  /** The colour tier of the system-state label: critical keywords first, then warning keywords. */
  function StateSeverity(estado: string): (r: Severity)
    ensures r == Critical <==> HasCritical(estado)
    ensures r == Warning <==> !HasCritical(estado) && HasWarning(estado)
    ensures r == Nominal <==> !HasCritical(estado) && !HasWarning(estado)
  {
    if AnyIn(CriticalWords, estado) then Critical
    else if AnyIn(WarningWords, estado) then Warning
    else Nominal
  }

  /** The two style choices `update_label_styles` makes. */
  datatype Styles = Styles(esdAlarm: bool, status: Severity)

  function LabelStyles(esd: string, estado: string): (r: Styles)
    ensures r.esdAlarm <==> esd == "Activado"
    ensures r.status == StateSeverity(estado)
  {
    Styles(esd == "Activado", StateSeverity(estado))
  }

  /** A keyword whose first letter the text lacks does not occur in it. */
  lemma AbsentFirstLetter(w: string, s: string)
    requires w != [] && w[0] !in s
    ensures !Occurs(w, s)
  {
    forall i | 0 <= i && i + |w| <= |s|
      ensures !OccursAt(w, s, i)
    {
      assert s[i..i + |w|][0] == s[i] != w[0];
    }
  }

  /** The state of a sample status line is shown in the nominal colour. */
  lemma NominalStateIsNominal()
    ensures LabelStyles("Normal", "Operando Normal") == Styles(false, Nominal)
  {
    var s := "Operando Normal";
    assert 'A' !in s && 'P' !in s && 'E' !in s && 'R' !in s;
    forall w | w in CriticalWords || w in WarningWords
      ensures !Occurs(w, s)
    {
      AbsentFirstLetter(w, s);
    }
  }
}
