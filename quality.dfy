/** The quality presets (`QUALITY_PRESETS`) and the label the quality selector
    holds (`currentQuality`). The selector offers one option per preset, in the
    table's key order, and its change handler stores the chosen option's label. */
module Quality {
  import opened Wrappers

  /** `QUALITY_PRESETS`: each label with its scale factor, in key order. */
  const Presets: seq<(string, nat)> :=
    [("1x", 1), ("2x", 2), ("3x", 3), ("4x", 4), ("6x", 6), ("8x", 8)]

  /** The label selected when the page loads. */
  const InitialQuality: string := "2x"

  /** `Object.keys(QUALITY_PRESETS)`: the labels, which are also the values of
      the selector's options. */
  function Labels(): (r: seq<string>)
    ensures |r| == |Presets|
    ensures forall i :: 0 <= i < |r| ==> r[i] == Presets[i].0
  {
    seq(|Presets|, i requires 0 <= i < |Presets| => Presets[i].0)
  }

  /** The selector offers `1x`, `2x`, `3x`, `4x`, `6x` and `8x`, no label twice,
      and the label selected when the page loads is among them. */
  lemma {:induction false} LabelsSpec()
    ensures Labels() == ["1x", "2x", "3x", "4x", "6x", "8x"]
    ensures forall i, j :: 0 <= i < j < |Labels()| ==> Labels()[i] != Labels()[j]
    ensures InitialQuality in Labels()
  {
    var l := Labels();
    assert l[1] == InitialQuality;
  }

  /** Property lookup on a table of labels: the value of the first entry with
      that label, or `None` (`undefined`) when there is none. */
  function Lookup(table: seq<(string, nat)>, name: string): Option<nat>
    decreases |table|
  {
    if table == [] then None
    else if table[0].0 == name then Some(table[0].1)
    else Lookup(table[1..], name)
  }

  /** `QUALITY_PRESETS[name]`. */
  function Scale(name: string): Option<nat> {
    Lookup(Presets, name)
  }

  /** The lookup finds a value exactly when the label is in the table, and then
      it is the value of the first entry with that label. */
  lemma {:induction false} LookupSpec(table: seq<(string, nat)>, name: string)
    ensures Lookup(table, name).None? <==> forall i :: 0 <= i < |table| ==> table[i].0 != name
    ensures Lookup(table, name).Some? ==>
              exists i :: 0 <= i < |table| && table[i] == (name, Lookup(table, name).value)
                && forall j :: 0 <= j < i ==> table[j].0 != name
    decreases |table|
  {
    if table != [] && table[0].0 != name {
      LookupSpec(table[1..], name);
      if Lookup(table, name).Some? {
        var i :| 0 <= i < |table[1..]| && table[1..][i] == (name, Lookup(table, name).value)
                 && forall j :: 0 <= j < i ==> table[1..][j].0 != name;
        assert table[i + 1] == table[1..][i];
        assert forall j :: 1 <= j < i + 1 ==> table[j] == table[1..][j - 1];
      }
      assert forall i :: 1 <= i < |table| ==> table[i] == table[1..][i - 1];
    } else if table != [] {
      assert table[0] == (name, Lookup(table, name).value);
    }
  }

  /** A label has a scale exactly when it is one of the presets, and every
      scale is 1, 2, 3, 4, 6 or 8, the number the label spells. */
  lemma {:induction false} ScaleOfLabel(name: string)
    ensures Scale(name).Some? <==> name in Labels()
    ensures Scale(name).Some? ==> Scale(name).value in {1, 2, 3, 4, 6, 8}
    ensures Scale(name).Some? ==>
              |name| == 2 && name[1] == 'x' && name[0] as int - '0' as int == Scale(name).value
  {
    LookupSpec(Presets, name);
    if Scale(name).Some? {
      var i :| 0 <= i < |Presets| && Presets[i] == (name, Scale(name).value);
      assert Labels()[i] == name;
    } else {
      assert name !in Labels();
    }
  }

  /** `currentQuality` after the user has picked the options at the given
      positions in turn; the selector offers no other values. */
  function CurrentQuality(picks: seq<nat>): (name: string)
    requires forall i :: 0 <= i < |picks| ==> picks[i] < |Presets|
    ensures name in Labels()
  {
    assert Labels()[1] == InitialQuality;
    if picks == [] then InitialQuality else Labels()[picks[|picks| - 1]]
  }

  /** Whatever the user has picked, the scale is one of the presets. */
  lemma {:induction false} ScaleAlwaysPreset(picks: seq<nat>)
    requires forall i :: 0 <= i < |picks| ==> picks[i] < |Presets|
    ensures Scale(CurrentQuality(picks)).Some?
    ensures Scale(CurrentQuality(picks)).value in {1, 2, 3, 4, 6, 8}
  {
    ScaleOfLabel(CurrentQuality(picks));
  }
}
