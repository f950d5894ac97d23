/** `Switch`: an on/off control that can be disabled, takes keyboard focus and ignores taps
    and hovering outside its cached minimum size. The mutex guarding `on` is not modelled,
    nor is drawing. The optional `OnChanged` callback is the flag `hasOnChanged` plus the log
    `changes`; a focus request to the canvas is counted in `focusRequests`; whether the device
    is mobile and whether the widget is on a canvas are parameters of `Tapped`. */
module Switches {
  import opened Desktop

  class Switch {
    var hasOnChanged: bool
    var changes: seq<bool>
    /** The `Disabled()` state of the embedded `DisableableWidget`. */
    var disabled: bool
    var focused: bool
    var hovered: bool
    var minSize: Size
    var on: bool
    var focusRequests: nat

    /** `NewSwitch`: off, enabled, no size cached yet. */
    constructor (hasOnChanged: bool)
      ensures !on && !focused && !hovered && !disabled && IsZero(minSize)
      ensures this.hasOnChanged == hasOnChanged && changes == [] && focusRequests == 0
    {
      this.hasOnChanged := hasOnChanged;
      changes := [];
      disabled := false;
      focused := false;
      hovered := false;
      minSize := Size(0.0, 0.0);
      on := false;
      focusRequests := 0;
    }

    /** `SetState`: the state becomes `on` and the callback hears `on` every time, whether or
        not the state changed. */
    method SetState(on: bool)
      modifies this`on, this`changes
      ensures this.on == on
      ensures changes == old(changes) + if hasOnChanged then [on] else []
    {
      if on != this.on {
        this.on := on;
      }
      if hasOnChanged {
        changes := changes + [on];
      }
    }

    /** `FocusGained`: a disabled switch does not take focus. */
    method FocusGained()
      modifies this`focused
      ensures focused == if disabled then old(focused) else true
    {
      if disabled {
        return;
      }
      focused := true;
    }

    /** `FocusLost`. */
    method FocusLost()
      modifies this`focused
      ensures !focused
    {
      focused := false;
    }

    /** `TypedRune`: the space bar flips an enabled switch; anything else is ignored. */
    method TypedRune(r: char)
      modifies this`on, this`changes
      ensures !disabled && r == ' ' ==>
                on == !old(on) && changes == old(changes) + if hasOnChanged then [on] else []
      ensures disabled || r != ' ' ==> on == old(on) && changes == old(changes)
    {
      if disabled {
        return;
      }
      if r == ' ' {
        SetState(!on);
      }
    }

    /** `Tapped` at point `p`: ignored when disabled or outside; otherwise an unfocused switch
        on a desktop canvas asks for focus, and the state flips. */
    method Tapped(p: Position, isMobile: bool, hasCanvas: bool)
      modifies this`on, this`changes, this`focusRequests
      ensures disabled || TappedOutside(minSize, p) ==>
                on == old(on) && changes == old(changes) && focusRequests == old(focusRequests)
      ensures !disabled && !TappedOutside(minSize, p) ==>
                && on == !old(on)
                && changes == old(changes) + (if hasOnChanged then [on] else [])
                && focusRequests == old(focusRequests) + if !focused && !isMobile && hasCanvas then 1 else 0
    {
      if disabled {
        return;
      }
      if !IsZero(minSize) && (p.x > minSize.width || p.y > minSize.height) {
        return;
      }
      if !focused {
        if !isMobile {
          if hasCanvas {
            focusRequests := focusRequests + 1;
          }
        }
      }
      SetState(!on);
    }

    /** `Cursor`: the pointer while hovered. */
    function Cursor(): (c: Cursor)
      reads this
      ensures c == PointerCursor <==> hovered
    {
      HoverCursor(hovered)
    }

    /** `MinSize`: caches the size the toolkit computed for the widget. */
    method MinSize(computed: Size) returns (s: Size)
      modifies this`minSize
      ensures minSize == computed && s == computed
    {
      minSize := computed;
      s := minSize;
    }

    /** `MouseMoved`: an enabled switch is hovered exactly when the pointer is within its
        cached size (or no size is cached). */
    method MouseMoved(p: Position)
      modifies this`hovered
      ensures hovered == if disabled then old(hovered) else HoversAt(minSize, p)
    {
      if disabled {
        return;
      }
      hovered := IsZero(minSize) || (p.x <= minSize.width && p.y <= minSize.height);
    }

    /** `MouseIn`: the same as a move. */
    method MouseIn(p: Position)
      modifies this`hovered
      ensures hovered == if disabled then old(hovered) else HoversAt(minSize, p)
    {
      MouseMoved(p);
    }

    /** `MouseOut`: always ends hovering. */
    method MouseOut()
      modifies this`hovered
      ensures !hovered
    {
      if hovered {
        hovered := false;
      }
    }
  }
}
