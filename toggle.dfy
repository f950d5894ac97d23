/** `Toggle`: an on/off control. The mutex guarding `On` is not modelled (each call runs on
    its own), nor is drawing. The optional `OnChanged` callback is the flag `hasOnChanged`
    plus the log `changes` of the values it was called with. */
module Toggles {
  import opened Desktop

  class Toggle {
    var hasOnChanged: bool
    var changes: seq<bool>
    var On: bool
    var hovered: bool

    /** `NewToggle`: off, not hovered. */
    constructor (hasOnChanged: bool)
      ensures !On && !hovered && this.hasOnChanged == hasOnChanged && changes == []
    {
      this.hasOnChanged := hasOnChanged;
      changes := [];
      On := false;
      hovered := false;
    }

    /** `SetState`: the state becomes `on`, and the callback hears `on` every time, even when
        the state was `on` already (the early `return` only leaves the locked inner
        function). */
    method SetState(on: bool)
      modifies this`On, this`changes
      ensures On == on
      ensures changes == old(changes) + if hasOnChanged then [on] else []
    {
      if on != On {
        On := on;
      }
      if hasOnChanged {
        changes := changes + [on];
      }
    }

    /** `Tapped`: flips the state and reports the new one. */
    method Tapped()
      modifies this`On, this`changes
      ensures On == !old(On)
      ensures changes == old(changes) + if hasOnChanged then [On] else []
    {
      SetState(!On);
    }

    /** `Cursor`: the pointer while hovered. */
    function Cursor(): (c: Cursor)
      reads this
      ensures c == PointerCursor <==> hovered
    {
      HoverCursor(hovered)
    }

    /** `MouseIn` and `MouseOut`: the toggle has no disabled state, so hovering always
        follows the pointer. */
    method MouseIn()
      modifies this`hovered
      ensures hovered
    {
      hovered := true;
    }

    method MouseOut()
      modifies this`hovered
      ensures !hovered
    {
      hovered := false;
    }
  }
}
