/**
 * The discrete scene state shared by every scene host and particle group:
 * the tree is either assembled (`Tree`) or scattered (`Explode`).
 */
module SceneState {
  datatype AnimationState = Tree | Explode

  /** The click handler's updater: Tree becomes Explode and anything else becomes Tree. */
  function Toggle(s: AnimationState): (r: AnimationState)
    ensures r != s
    ensures r == Tree <==> s == Explode
  {
    if s.Tree? then Explode else Tree
  }

  /** Toggling is an involution: two clicks restore the state. */
  lemma ToggleTwice(s: AnimationState)
    ensures Toggle(Toggle(s)) == s
  {
  }

  /** The status label shown by the click-only host. */
  function StatusLabel(s: AnimationState): (text: string)
    ensures text == "🎄 Tree Mode" <==> s == Tree
    ensures text == "💥 Explode Mode" <==> s == Explode
  {
    if s.Tree? then "🎄 Tree Mode" else "💥 Explode Mode"
  }
}
