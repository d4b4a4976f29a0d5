/** The dwl compositor service's published state: outputs with their tags,
  * the tag count, the layouts and the active output; when a new state is
  * worth announcing, and what is published before any state exists. */
module DwlTypes {
  import opened Common

  datatype TagState = TagState(Tag: bv32, State: bv32, Clients: bv32, Focused: bv32)

  datatype OutputState = OutputState(
    Name: string, Active: bv32, Tags: seq<TagState>, Layout: bv32, LayoutSymbol: string,
    Title: string, AppID: string)

  /** The outputs map holds values rather than Go pointers. */
  datatype State = State(
    Outputs: map<string, OutputState>, TagCount: bv32, Layouts: seq<string>, ActiveOutput: string)

  /** The tag comparison of `stateChanged`: lengths first, then each tag
    * position by all four fields. */
  function TagsChanged(o: seq<TagState>, n: seq<TagState>): (changed: bool)
    ensures changed <==> o != n
  {
    if |o| != |n| then true
    else
      var differs := exists i :: 0 <= i < |n| && o[i] != n[i];
      assert !differs ==> o == n;
      differs
  }

  /** One output compared with its predecessor of the same name; the
    * recorded name itself is not compared. */
  function OutputChanged(o: OutputState, n: OutputState): (changed: bool)
    ensures !changed <==> o.(Name := n.Name) == n
  {
    o.Active != n.Active || o.Layout != n.Layout || o.LayoutSymbol != n.LayoutSymbol
    || o.Title != n.Title || o.AppID != n.AppID || TagsChanged(o.Tags, n.Tags)
  }

  /** `stateChanged`: a missing side is a change. Otherwise the tag count,
    * the number of layouts, the active output and the number of outputs
    * are compared, then every new output with the old one of its name.
    * Since the result is a disjunction, the map's iteration order does not
    * matter. */
  function StateChanged(prev: Option<State>, next: Option<State>): (changed: bool)
    ensures prev.None? || next.None? ==> changed
  {
    if prev.None? || next.None? then true
    else
      var o, n := prev.value, next.value;
      if o.TagCount != n.TagCount then true
      else if |o.Layouts| != |n.Layouts| then true
      else if o.ActiveOutput != n.ActiveOutput then true
      else if |o.Outputs| != |n.Outputs| then true
      else exists name | name in n.Outputs :: name !in o.Outputs || OutputChanged(o.Outputs[name], n.Outputs[name])
  }

  /** Two present states are reported unchanged exactly when they agree on
    * the tag count, the number of layouts, the active output and, output by
    * output, everything but the recorded names. */
  lemma {:induction false} UnchangedMeans(o: State, n: State)
    ensures !StateChanged(Some(o), Some(n)) <==>
              o.TagCount == n.TagCount && |o.Layouts| == |n.Layouts| && o.ActiveOutput == n.ActiveOutput
              && o.Outputs.Keys == n.Outputs.Keys
              && forall name :: name in n.Outputs ==> o.Outputs[name].(Name := name) == n.Outputs[name].(Name := name)
  {
    if !StateChanged(Some(o), Some(n)) {
      assert n.Outputs.Keys <= o.Outputs.Keys;
      SubsetOfSameSize(n.Outputs.Keys, o.Outputs.Keys);
    }
  }

  /** A state is never a change from itself, but renaming a layout while
    * keeping their number is not noticed. */
  lemma LayoutRenameUnnoticed(s: State, layouts: seq<string>)
    requires |layouts| == |s.Layouts|
    ensures !StateChanged(Some(s), Some(s))
    ensures !StateChanged(Some(s), Some(s.(Layouts := layouts)))
  {
    UnchangedMeans(s, s);
    UnchangedMeans(s, s.(Layouts := layouts));
  }

  /** `GetState`: a copy of the state, or, before the first one, no
    * outputs, no layouts and tag count 0. */
  function GetState(state: Option<State>): (s: State)
    ensures state.Some? ==> s == state.value
    ensures state.None? ==> s.Outputs == map[] && s.Layouts == [] && s.TagCount == 0 && s.ActiveOutput == ""
  {
    if state.None? then State(map[], 0, [], "") else state.value
  }
}
