/**
 * The breed-prediction form: a list of rows (breed, percentage), the add,
 * delete and update operations on it, the percentage total, the validity
 * rule, the picks sent on submit and the filter on what the percentage field
 * accepts.
 */
module BreedSelection {
  import opened Wrappers
  import opened Text
  import opened ListUpdates

  datatype BreedComponent = BreedComponent(id: string, breed: string, percentage: string)

  /** A selectable breed as loaded from the `breed_type` table. */
  datatype BreedOption = BreedOption(typeName: string, id: int)

  datatype Field = Breed | Percentage

  /** One pick sent to `submit_prediction`. */
  datatype Pick = Pick(typeId: int, pct: int)

  /** The form starts with a single blank row with id "1". */
  const InitialComponents: seq<BreedComponent> := [BreedComponent("1", "", "")]

  ghost predicate DistinctIds(rows: seq<BreedComponent>) {
    forall i, j :: 0 <= i < j < |rows| ==> rows[i].id != rows[j].id
  }

  // ---------------------------------------------------------------------------
  // Row list updates

  /** `addComponent`: a blank row with a fresh id (`Date.now()`) goes at the end. */
  function AddComponent(rows: seq<BreedComponent>, newId: string): (r: seq<BreedComponent>)
    ensures |r| == |rows| + 1 && r[..|rows|] == rows
    ensures r[|rows|] == BreedComponent(newId, "", "")
  {
    rows + [BreedComponent(newId, "", "")]
  }

  /** `deleteComponent`: drops the rows with `id`, unless only one row is left. */
  function DeleteComponent(rows: seq<BreedComponent>, id: string): (r: seq<BreedComponent>)
    ensures |rows| <= 1 ==> r == rows
    ensures |rows| > 1 ==> forall i :: 0 <= i < |r| ==> r[i].id != id && r[i] in rows
    ensures |rows| > 1 ==> forall i :: 0 <= i < |rows| && rows[i].id != id ==> rows[i] in r
  {
    if |rows| > 1 then RemoveWhere(rows, (c: BreedComponent) => c.id == id) else rows
  }

  /** Deleting keeps the other rows in their order: it distributes over any split of the list. */
  lemma DeleteKeepsOrder(front: seq<BreedComponent>, back: seq<BreedComponent>, id: string)
    requires |front + back| > 1
    ensures DeleteComponent(front + back, id)
            == RemoveWhere(front, (c: BreedComponent) => c.id == id) + RemoveWhere(back, (c: BreedComponent) => c.id == id)
  {
    RemoveWhereAppend(front, back, (c: BreedComponent) => c.id == id);
  }

  /** With distinct ids a delete never empties the list: at most one row goes. */
  lemma DeleteNeverEmpties(rows: seq<BreedComponent>, id: string)
    requires rows != [] && DistinctIds(rows)
    ensures DeleteComponent(rows, id) != []
  {
    if |rows| > 1 {
      if rows[0].id == id {
        assert rows[1].id != id;
      }
      var k := if rows[0].id == id then 1 else 0;
      assert rows[k] in DeleteComponent(rows, id);
    }
  }

  /** With two rows that share an id, deleting that id empties the list. */
  lemma DeleteSharedIdEmpties()
    ensures var rows := [BreedComponent("7", "", ""), BreedComponent("7", "", "")];
            |rows| > 1 && DeleteComponent(rows, "7") == []
  {
    var rows := [BreedComponent("7", "", ""), BreedComponent("7", "", "")];
    assert rows[1..][1..] == [];
  }

  /** Adding a row with an unused id and deleting that id gives back the original rows. */
  lemma DeleteUndoesAdd(rows: seq<BreedComponent>, newId: string)
    requires rows != []
    requires forall i :: 0 <= i < |rows| ==> rows[i].id != newId
    ensures DeleteComponent(AddComponent(rows, newId), newId) == rows
  {
    var p := (c: BreedComponent) => c.id == newId;
    RemoveWhereAppend(rows, [BreedComponent(newId, "", "")], p);
    RemoveWhereNoMatch(rows, p);
    assert RemoveWhere([BreedComponent(newId, "", "")], p) == [];
  }

  /** `updateComponent`: sets `field` to `value` in the rows with `id`; nothing else changes. */
  function UpdateComponent(rows: seq<BreedComponent>, id: string, field: Field, value: string): (r: seq<BreedComponent>)
    ensures |r| == |rows|
    ensures forall i :: 0 <= i < |rows| ==> r[i].id == rows[i].id
    ensures forall i :: 0 <= i < |rows| && rows[i].id != id ==> r[i] == rows[i]
    ensures forall i :: 0 <= i < |rows| && rows[i].id == id ==>
              if field == Breed then r[i].breed == value && r[i].percentage == rows[i].percentage
              else r[i].percentage == value && r[i].breed == rows[i].breed
  {
    seq(|rows|, i requires 0 <= i < |rows| =>
      if rows[i].id != id then rows[i]
      else if field == Breed then rows[i].(breed := value)
      else rows[i].(percentage := value))
  }

  // ---------------------------------------------------------------------------
  // Percentages

  /**
   * `parseInt(s, 10)`: skips leading whitespace, reads an optional sign and the
   * longest run of decimal digits; `None` (NaN) when there are no digits.
   */
  function ParseInt(s: string): (r: Option<int>)
    ensures r.None? <==> var t := TrimStart(s);
              var u := if t != [] && (t[0] == '-' || t[0] == '+') then t[1..] else t;
              u == [] || !IsDigit(u[0])
  {
    var t := TrimStart(s);
    var negative := t != [] && t[0] == '-';
    var u := if t != [] && (t[0] == '-' || t[0] == '+') then t[1..] else t;
    var digits := DigitPrefix(u);
    if digits == [] then None
    else Some(if negative then -(DecimalValue(digits) as int) else DecimalValue(digits))
  }

  /** The longest prefix of `s` made of decimal digits. */
  function DigitPrefix(s: string): (r: string)
    ensures IsPrefix(r, s) && AllDigits(r)
    ensures |r| < |s| ==> !IsDigit(s[|r|])
  {
    if s == [] || !IsDigit(s[0]) then [] else [s[0]] + DigitPrefix(s[1..])
  }

  /** A field that passed the input filter parses to the number its digits spell. */
  lemma ParseDigits(s: string)
    requires s != [] && AllDigits(s)
    ensures ParseInt(s) == Some(DecimalValue(s))
  {
    assert TrimStart(s) == s;
    assert DigitPrefix(s) == s by { DigitPrefixAll(s); }
  }

  lemma {:induction false} DigitPrefixAll(s: string)
    requires AllDigits(s)
    ensures DigitPrefix(s) == s
  {
    if s != [] {
      DigitPrefixAll(s[1..]);
    }
  }

  /** A row's contribution: its parsed percentage, or 0 when that is not a number. */
  function RowPercent(c: BreedComponent): int {
    ParseInt(c.percentage).GetOr(0)
  }

  /** `totalPercentage`: the sum of the rows' contributions. */
  function TotalPercentage(rows: seq<BreedComponent>): int {
    if rows == [] then 0 else RowPercent(rows[0]) + TotalPercentage(rows[1..])
  }

  /** The total is additive over any split of the rows, so summing in any grouping agrees. */
  lemma {:induction false} TotalAppend(xs: seq<BreedComponent>, ys: seq<BreedComponent>)
    ensures TotalPercentage(xs + ys) == TotalPercentage(xs) + TotalPercentage(ys)
  {
    if xs == [] {
      assert xs + ys == ys;
    } else {
      assert (xs + ys)[0] == xs[0] && (xs + ys)[1..] == xs[1..] + ys;
      TotalAppend(xs[1..], ys);
    }
  }

  /** Blank and unparseable percentages count as 0, so a fresh row leaves the total unchanged. */
  lemma AddKeepsTotal(rows: seq<BreedComponent>, newId: string)
    ensures TotalPercentage(AddComponent(rows, newId)) == TotalPercentage(rows)
  {
    TotalAppend(rows, [BreedComponent(newId, "", "")]);
    assert ParseInt("") == None;
  }

  /** When every percentage field is blank or all digits, the total is the sum of the digit values. */
  lemma {:induction false} TotalOfDigitRows(rows: seq<BreedComponent>)
    requires forall i :: 0 <= i < |rows| ==> AllDigits(rows[i].percentage)
    ensures TotalPercentage(rows) == DigitSum(rows)
  {
    if rows != [] {
      TotalOfDigitRows(rows[1..]);
      if rows[0].percentage != [] {
        ParseDigits(rows[0].percentage);
      }
    }
  }

  /** The sum of the values of all-digit percentage fields (blank fields count 0). */
  ghost function DigitSum(rows: seq<BreedComponent>): nat
    requires forall i :: 0 <= i < |rows| ==> AllDigits(rows[i].percentage)
  {
    if rows == [] then 0 else DecimalValue(rows[0].percentage) + DigitSum(rows[1..])
  }

  /** `comp.breed && comp.breed.trim() !== ''`. */
  predicate BreedChosen(c: BreedComponent) {
    c.breed != "" && Trim(c.breed) != ""
  }

  /** `isValid`: the percentages add up to 100 and every row names a breed. */
  predicate IsValid(rows: seq<BreedComponent>) {
    TotalPercentage(rows) == 100 && forall i :: 0 <= i < |rows| ==> BreedChosen(rows[i])
  }

  /** The initial form is not valid: its only row is blank. */
  lemma InitialNotValid()
    ensures !IsValid(InitialComponents)
  {
    assert !BreedChosen(InitialComponents[0]);
  }

  // ---------------------------------------------------------------------------
  // The percentage input filter

  /** The field takes the new text only when it is empty or all digits (`/^\d+$/`). */
  predicate AcceptsPercentage(value: string) {
    value == "" || AllDigits(value)
  }

  /** The `onChange` handler of a percentage field. */
  function OnPercentageInput(rows: seq<BreedComponent>, id: string, value: string): (r: seq<BreedComponent>)
    ensures !AcceptsPercentage(value) ==> r == rows
    ensures AcceptsPercentage(value) ==> r == UpdateComponent(rows, id, Percentage, value)
  {
    if AcceptsPercentage(value) then UpdateComponent(rows, id, Percentage, value) else rows
  }

  /** Input through the filter keeps every percentage field blank or all digits. */
  lemma OnPercentageInputKeepsDigits(rows: seq<BreedComponent>, id: string, value: string)
    requires forall i :: 0 <= i < |rows| ==> AllDigits(rows[i].percentage)
    ensures var r := OnPercentageInput(rows, id, value);
            forall i :: 0 <= i < |r| ==> AllDigits(r[i].percentage)
  {
  }

  // ---------------------------------------------------------------------------
  // Submit

  /** `breedOptions.find(b => b.type_name === name)?.id`. */
  function FindOptionId(options: seq<BreedOption>, name: string): (r: Option<int>)
    ensures r.None? <==> forall k :: 0 <= k < |options| ==> options[k].typeName != name
    ensures r.Some? ==> exists k :: 0 <= k < |options| && options[k].typeName == name && options[k].id == r.value
                                    && forall m :: 0 <= m < k ==> options[m].typeName != name
  {
    if options == [] then None
    else if options[0].typeName == name then Some(options[0].id)
    else
      var r := FindOptionId(options[1..], name);
      if r.Some? then
        var k :| 0 <= k < |options[1..]| && options[1..][k].typeName == name && options[1..][k].id == r.value
                 && forall m :: 0 <= m < k ==> options[1..][m].typeName != name;
        assert options[k + 1].typeName == name && options[k + 1].id == r.value;
        r
      else r
  }

  /**
   * The pick a row yields: only a row with a breed and a percentage, whose
   * breed is among the options and whose percentage parses, yields one.
   */
  function PickOf(c: BreedComponent, options: seq<BreedOption>): (r: Option<Pick>)
    ensures r.Some? <==> c.breed != "" && c.percentage != ""
                         && FindOptionId(options, c.breed).Some? && ParseInt(c.percentage).Some?
    ensures r.Some? ==> FindOptionId(options, c.breed) == Some(r.value.typeId)
                        && ParseInt(c.percentage) == Some(r.value.pct)
  {
    if c.breed != "" && c.percentage != "" then
      match (FindOptionId(options, c.breed), ParseInt(c.percentage))
      case (Some(typeId), Some(pct)) => Some(Pick(typeId, pct))
      case _ => None
    else None
  }

  /** The picks of the rows that yield one, in row order. */
  function Picks(rows: seq<BreedComponent>, options: seq<BreedOption>): (r: seq<Pick>)
    ensures |r| <= |rows|
  {
    if rows == [] then []
    else
      var rest := Picks(rows[1..], options);
      match PickOf(rows[0], options)
      case Some(p) => [p] + rest
      case None => rest
  }

  /** Every pick comes from some row. */
  lemma {:induction false} PicksFromRows(rows: seq<BreedComponent>, options: seq<BreedOption>)
    ensures forall k :: 0 <= k < |Picks(rows, options)| ==>
              exists i :: 0 <= i < |rows| && PickOf(rows[i], options) == Some(Picks(rows, options)[k])
  {
    if rows != [] {
      PicksFromRows(rows[1..], options);
      var r := Picks(rows, options);
      var rest := Picks(rows[1..], options);
      var off := if PickOf(rows[0], options).Some? then 1 else 0;
      if off == 1 {
        assert r == [PickOf(rows[0], options).value] + rest;
      } else {
        assert r == rest;
      }
      forall k | 0 <= k < |r|
        ensures exists i :: 0 <= i < |rows| && PickOf(rows[i], options) == Some(r[k])
      {
        if k < off {
          assert PickOf(rows[0], options) == Some(r[k]);
        } else {
          assert r[k] == rest[k - off];
          var i :| 0 <= i < |rows[1..]| && PickOf(rows[1..][i], options) == Some(rest[k - off]);
          assert rows[1..][i] == rows[i + 1];
          assert 0 <= i + 1 < |rows| && PickOf(rows[i + 1], options) == Some(r[k]);
        }
      }
    } else {
      assert Picks(rows, options) == [];
    }
  }

  /** Every row that yields a pick is represented, so no usable row is dropped. */
  lemma {:induction false} RowsToPicks(rows: seq<BreedComponent>, options: seq<BreedOption>)
    ensures forall i :: 0 <= i < |rows| && PickOf(rows[i], options).Some? ==>
              PickOf(rows[i], options).value in Picks(rows, options)
  {
    if rows != [] {
      RowsToPicks(rows[1..], options);
      forall i | 0 <= i < |rows| && PickOf(rows[i], options).Some?
        ensures PickOf(rows[i], options).value in Picks(rows, options)
      {
        if i > 0 {
          assert rows[i] == rows[1..][i - 1];
        }
      }
    }
  }

  function TypeIds(picks: seq<Pick>): (ids: seq<int>)
    ensures |ids| == |picks| && forall i :: 0 <= i < |picks| ==> ids[i] == picks[i].typeId
  {
    seq(|picks|, i requires 0 <= i < |picks| => picks[i].typeId)
  }

  predicate Distinct(ids: seq<int>) {
    forall i, j :: 0 <= i < j < |ids| ==> ids[i] != ids[j]
  }

  function SetOf(ids: seq<int>): set<int> {
    set i | i in ids
  }

  /** `new Set(ids).size === ids.length` holds exactly when no id repeats. */
  lemma {:induction false} SetSizeIffDistinct(ids: seq<int>)
    ensures |SetOf(ids)| <= |ids|
    ensures |SetOf(ids)| == |ids| <==> Distinct(ids)
  {
    if ids != [] {
      var tail := ids[1..];
      SetSizeIffDistinct(tail);
      assert SetOf(ids) == {ids[0]} + SetOf(tail);
      if ids[0] in tail {
        assert SetOf(ids) == SetOf(tail);
        var j :| 0 <= j < |tail| && tail[j] == ids[0];
        assert ids[j + 1] == ids[0];
      } else {
        assert |SetOf(ids)| == |SetOf(tail)| + 1;
        if Distinct(tail) {
          forall i, j | 0 <= i < j < |ids| ensures ids[i] != ids[j] {
            if i > 0 {
              assert ids[i] == tail[i - 1] && ids[j] == tail[j - 1];
            } else {
              assert ids[j] == tail[j - 1];
            }
          }
        } else {
          var i, j :| 0 <= i < j < |tail| && tail[i] == tail[j];
          assert ids[i + 1] == ids[j + 1];
        }
      }
    }
  }

  datatype SubmitOutcome = NotValid | DuplicateBreed | Submitted(picks: seq<Pick>)

  /** `handleSubmit` up to the RPC: nothing when invalid, refusal when a breed id repeats. */
  function HandleSubmit(rows: seq<BreedComponent>, options: seq<BreedOption>): (r: SubmitOutcome)
    ensures r == NotValid <==> !IsValid(rows)
    ensures r == DuplicateBreed <==> IsValid(rows) && !Distinct(TypeIds(Picks(rows, options)))
    ensures r.Submitted? ==> r.picks == Picks(rows, options) && Distinct(TypeIds(r.picks))
  {
    if !IsValid(rows) then NotValid
    else
      var picks := Picks(rows, options);
      var ids := TypeIds(picks);
      SetSizeIffDistinct(ids);
      if |SetOf(ids)| != |ids| then DuplicateBreed else Submitted(picks)
  }
}
