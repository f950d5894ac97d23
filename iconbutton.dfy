/** `IconButton`: an icon that runs a callback, or opens a menu, when tapped. The canvas image
    it draws is reduced to the resource it shows; `theme.NewDisabledResource` is the abstract
    `DisabledVariant` constructor; the popup menu is reduced to its item labels and a count of
    the times it was shown. */
module IconButtons {
  import opened Svg
  import opened Desktop

  /** A resource as displayed: the resource itself, or the theme's disabled (greyed) variant
      of it. */
  datatype Shown = Plain(res: Resource) | DisabledVariant(res: Resource)

  /** `OnTapped`: unset, a caller's callback, or the menu-opening closure installed by
      `NewIconButtonWithMenu`. */
  datatype TapHandler = NoHandler | CallerHandler | MenuHandler

  /** The `menu` pointer: nil, or a menu with these items. */
  datatype Menu = NoMenu | Menu(items: seq<string>)

  /** What `setIconResource` stores as the disabled look: only SVG icons can be recoloured,
      every other icon is shown as it is. */
  function DisabledLook(icon: Resource): (s: Shown)
    ensures s.res == icon
    ensures s.DisabledVariant? <==> IsResourceSvg(icon)
  {
    if IsResourceSvg(icon) then DisabledVariant(icon) else Plain(icon)
  }

  class IconButton {
    var OnTapped: TapHandler
    /** The `Disabled()` state of the embedded `DisableableWidget`. */
    var disabled: bool
    var hovered: bool
    /** `icon.Resource`: what the image currently shows. */
    var iconShown: Shown
    var menu: Menu
    var resource: Resource
    var resourceDisabled: Shown
    /** How often the caller's callback ran, and how often a popup menu was shown. */
    var callbackRuns: nat
    var menusShown: nat

    /** The menu closure is only ever installed together with a menu. */
    ghost predicate Valid()
      reads this
    {
      OnTapped == MenuHandler ==> menu.Menu?
    }

    /** The image shows the disabled look exactly while the button is disabled. */
    ghost predicate ShowsState()
      reads this
    {
      iconShown == if disabled then resourceDisabled else Plain(resource)
    }

    /** `NewIconButton`: an enabled button showing `icon`, with the caller's callback when one
        is given. */
    constructor (icon: Resource, hasTapped: bool)
      ensures Valid() && ShowsState()
      ensures resource == icon && resourceDisabled == DisabledLook(icon)
      ensures OnTapped == (if hasTapped then CallerHandler else NoHandler) && menu == NoMenu
      ensures !disabled && !hovered && callbackRuns == 0 && menusShown == 0
    {
      OnTapped := if hasTapped then CallerHandler else NoHandler;
      disabled := false;
      hovered := false;
      iconShown := Plain(icon);
      menu := NoMenu;
      callbackRuns := 0;
      menusShown := 0;
      new;
      SetIconResource(icon);
    }

    /** `NewIconButtonWithMenu`: a button whose tap opens the menu. */
    constructor WithMenu(icon: Resource, items: seq<string>)
      ensures Valid() && ShowsState()
      ensures resource == icon && resourceDisabled == DisabledLook(icon)
      ensures OnTapped == MenuHandler && menu == Menu(items)
      ensures !disabled && !hovered && callbackRuns == 0 && menusShown == 0
    {
      OnTapped := NoHandler;
      disabled := false;
      hovered := false;
      iconShown := Plain(icon);
      menu := NoMenu;
      callbackRuns := 0;
      menusShown := 0;
      new;
      SetIconResource(icon);
      menu := Menu(items);
      OnTapped := MenuHandler;
    }

    /** `setIconResource`: the icon and its disabled look. */
    method SetIconResource(icon: Resource)
      modifies this`resource, this`resourceDisabled
      ensures resource == icon && resourceDisabled == DisabledLook(icon)
    {
      resource := icon;
      if IsResourceSvg(icon) {
        resourceDisabled := DisabledVariant(icon);
      } else {
        resourceDisabled := Plain(icon);
      }
    }

    /** `updateState`: show the disabled look while disabled, the icon otherwise. */
    method UpdateState()
      modifies this`iconShown
      ensures ShowsState()
    {
      if disabled {
        iconShown := resourceDisabled;
      } else {
        iconShown := Plain(resource);
      }
    }

    /** `Refresh`, as far as the shown resource goes. */
    method Refresh()
      modifies this`iconShown
      ensures ShowsState()
    {
      UpdateState();
    }

    /** `SetIcon`: replace the icon and show it in the current state; a disabled button with
        an SVG icon shows the icon's disabled variant. */
    method SetIcon(icon: Resource)
      modifies this`resource, this`resourceDisabled, this`iconShown
      ensures resource == icon && resourceDisabled == DisabledLook(icon) && ShowsState()
      ensures iconShown == if disabled && IsResourceSvg(icon) then DisabledVariant(icon) else Plain(icon)
    {
      SetIconResource(icon);
      Refresh();
    }

    /** The host's `Disable`/`Enable`: set the state and refresh. */
    method SetDisabled(d: bool)
      modifies this`disabled, this`iconShown
      ensures disabled == d && ShowsState()
    {
      disabled := d;
      Refresh();
    }

    /** `SetMenuItems`: without a menu nothing happens; otherwise the items are replaced. */
    method SetMenuItems(items: seq<string>)
      modifies this`menu, this`iconShown
      ensures old(menu) == NoMenu ==> menu == NoMenu && iconShown == old(iconShown)
      ensures old(menu) != NoMenu ==> menu == Menu(items) && ShowsState()
    {
      if menu == NoMenu {
        return;
      }
      menu := Menu(items);
      Refresh();
    }

    /** `Tapped`: an enabled button runs its handler; the menu handler shows the menu only
        when it has items. */
    method Tapped()
      requires Valid()
      modifies this`callbackRuns, this`menusShown
      ensures callbackRuns == old(callbackRuns) + if !disabled && OnTapped == CallerHandler then 1 else 0
      ensures menusShown == old(menusShown) +
                if !disabled && OnTapped == MenuHandler && |menu.items| > 0 then 1 else 0
    {
      if !disabled && OnTapped != NoHandler {
        match OnTapped
        case CallerHandler =>
          callbackRuns := callbackRuns + 1;
        case MenuHandler =>
          if |menu.items| == 0 {
            return;
          }
          menusShown := menusShown + 1;
      }
    }

    /** `Cursor`: the pointer while hovered. */
    function Cursor(): (c: Cursor)
      reads this
      ensures c == PointerCursor <==> hovered
    {
      HoverCursor(hovered)
    }

    /** `MouseIn`: a disabled button ignores the pointer. */
    method MouseIn()
      modifies this`hovered
      ensures hovered == if disabled then old(hovered) else true
    {
      if disabled {
        return;
      }
      hovered := true;
    }

    /** `MouseOut`: always ends hovering. */
    method MouseOut()
      modifies this`hovered
      ensures !hovered
    {
      hovered := false;
    }

    /** The first step of `CreateRenderer`. */
    method CreateRenderer()
      modifies this`iconShown
      ensures ShowsState()
    {
      UpdateState();
    }
  }
}
