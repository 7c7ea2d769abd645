// The browser chrome (Chrome.kt): the tab strip, the back and forward
// buttons and the address bar with its line editor. Font metrics are
// parameters (the widths `getStringBounds` reports); painting is not
// modelled.

module Chromes {
  import opened Common
  import opened Tabs
  import opened Browsers

  const Padding: int := 5
  /** The page the `+` button opens. */
  const NewTabUrl: string := "https://browser.engineering/"

  /** `KeyEvent` codes the address bar reacts to. */
  const VkBackSpace: int := 8
  const VkEnter: int := 10
  const VkEscape: int := 27
  const VkLeft: int := 37
  const VkRight: int := 39
  const VkDelete: int := 127
  /** `MouseEvent.BUTTON1` and `BUTTON2`. */
  const Button1: int := 1
  const Button2: int := 2

  // ------------------------------------------------------------- geometry

  /** `Rectangle(top, left, bottom, right)` */
  datatype Rectangle = Rectangle(top: int, left: int, bottom: int, right: int)
  {
    /** `contains(x, y)`: both ranges are closed. */
    predicate Contains(x: int, y: int)
    {
      left <= x <= right && top <= y <= bottom
    }
  }

  /** A non-empty rectangle holds its four corners. */
  lemma CornersInside(r: Rectangle)
    requires r.left <= r.right && r.top <= r.bottom
    ensures r.Contains(r.left, r.top) && r.Contains(r.right, r.top)
    ensures r.Contains(r.left, r.bottom) && r.Contains(r.right, r.bottom)
  {
  }

  /**
   * The font metrics the chrome is built from: the line height and the
   * widths of `+`, `<`, `>` and `Tab X` in the chrome's font.
   */
  datatype Metrics = Metrics(fontHeight: int, plusWidth: int, backWidth: int, forwardWidth: int, tabLabelWidth: int)

  function TabbarBottom(m: Metrics): int { m.fontHeight + 2 * Padding }
  function UrlbarBottom(m: Metrics): int { TabbarBottom(m) + m.fontHeight + 2 * Padding }

  function NewTabRect(m: Metrics): Rectangle
  {
    Rectangle(Padding, Padding, Padding + m.fontHeight, Padding + (m.plusWidth + 2 * Padding))
  }

  function BackRect(m: Metrics): Rectangle
  {
    Rectangle(TabbarBottom(m) + Padding, Padding, UrlbarBottom(m) - Padding, Padding + (m.backWidth + 2 * Padding))
  }

  function ForwardRect(m: Metrics): Rectangle
  {
    var left := BackRect(m).right + 2 * Padding;
    Rectangle(TabbarBottom(m) + Padding, left, UrlbarBottom(m) - Padding, left + (m.forwardWidth + 2 * Padding))
  }

  /** The address bar runs from after the forward button to the panel's right edge. */
  function AddressRect(m: Metrics, width: int): Rectangle
  {
    Rectangle(TabbarBottom(m) + Padding, ForwardRect(m).right + Padding, UrlbarBottom(m) - Padding, width - Padding)
  }

  function TabWidth(m: Metrics): int { m.tabLabelWidth + 2 * Padding }

  /** `tabRect(index)`: tab `index` of the strip that starts after the `+` button. */
  function TabRect(m: Metrics, index: int): (r: Rectangle)
    ensures r.top == 0 && r.bottom == TabbarBottom(m)
    ensures r.left == NewTabRect(m).right + Padding + index * TabWidth(m)
    ensures r.right == NewTabRect(m).right + Padding + (index + 1) * TabWidth(m)
  {
    var start := NewTabRect(m).right + Padding;
    Rectangle(0, start + index * TabWidth(m), TabbarBottom(m), start + (index + 1) * TabWidth(m))
  }

  /** Neighbouring tabs share an edge: a point on it lies in both. */
  lemma NeighboursShareEdge(m: Metrics, i: int, y: int)
    requires 0 <= y <= TabbarBottom(m) && TabWidth(m) >= 0
    ensures TabRect(m, i).right == TabRect(m, i + 1).left
    ensures TabRect(m, i).Contains(TabRect(m, i).right, y) && TabRect(m, i + 1).Contains(TabRect(m, i).right, y)
  {
    assert (i + 1) * TabWidth(m) == i * TabWidth(m) + TabWidth(m);
    assert (i + 2) * TabWidth(m) == (i + 1) * TabWidth(m) + TabWidth(m);
  }

  /** `tabs.indices.firstOrNull { tabRect(it).contains(x, y) }`, searching from `k`: -1 when no tab holds the point. */
  function FirstTabAt(m: Metrics, count: nat, x: int, y: int, k: nat): (r: int)
    requires k <= count
    ensures r == -1 || (k <= r < count && TabRect(m, r).Contains(x, y))
    ensures r == -1 ==> forall j :: k <= j < count ==> !TabRect(m, j).Contains(x, y)
    ensures r != -1 ==> forall j :: k <= j < r ==> !TabRect(m, j).Contains(x, y)
    decreases count - k
  {
    if k == count then -1
    else if TabRect(m, k).Contains(x, y) then k
    else FirstTabAt(m, count, x, y, k + 1)
  }

  /** Tabs lie left to right: with a positive width, tab `j` ends no later than tab `i` starts, for `j < i`. */
  lemma TabsInOrder(m: Metrics, j: int, i: int)
    requires TabWidth(m) > 0 && j < i
    ensures TabRect(m, j).right <= TabRect(m, i).left
  {
    var w := TabWidth(m);
    assert (j + 1) * w <= i * w by {
      assert i * w - (j + 1) * w == (i - j - 1) * w;
    }
  }

  /** A click on the edge shared by tabs `i` and `i + 1` goes to tab `i`. */
  lemma SharedEdgeGoesLeft(m: Metrics, count: nat, i: nat, y: int)
    requires TabWidth(m) > 0 && i + 1 < count && 0 <= y <= TabbarBottom(m)
    ensures FirstTabAt(m, count, TabRect(m, i).right, y, 0) == i
  {
    var x := TabRect(m, i).right;
    NeighboursShareEdge(m, i, y);
    forall j | 0 <= j < i
      ensures !TabRect(m, j).Contains(x, y)
    {
      TabsInOrder(m, j, i);
      assert TabRect(m, i).left < x;
    }
    assert TabRect(m, i).Contains(x, y);
  }

  // ----------------------------------------------------------- address bar

  /** The address bar's editing state: focused or not, its text and the cursor position. */
  datatype AddressBar = AddressBar(focused: bool, text: string, cursor: int)
  {
    /** The cursor is a position in the text, as `substring` and `removeRange` need. */
    predicate Editable() { 0 <= cursor <= |text| }

    /** The cursor is a position in the text or one before it, where Delete can leave it. */
    predicate Reachable() { -1 <= cursor <= |text| }
  }

  /**
   * `keyTyped(key)` on a focused bar: the key is inserted at the cursor,
   * which moves past it; a cursor outside the text makes `substring` throw.
   * An unfocused bar is left alone.
   */
  function Typed(b: AddressBar, key: char): (r: Outcome<AddressBar>)
  {
    if !b.focused then Ok(b)
    else if !b.Editable() then Fail(IndexOutOfBounds)
    else Ok(AddressBar(true, b.text[..b.cursor] + [key] + b.text[b.cursor..], b.cursor + 1))
  }

  /** Typing into a focused, editable bar inserts the key right before the cursor and keeps the bar editable. */
  lemma TypedInserts(b: AddressBar, key: char)
    requires b.focused && b.Editable()
    ensures var r := Typed(b, key);
      r.Ok? && r.value.Editable() && |r.value.text| == |b.text| + 1
      && r.value.text[r.value.cursor - 1] == key
      && r.value.text[..r.value.cursor - 1] == b.text[..b.cursor]
      && r.value.text[r.value.cursor..] == b.text[b.cursor..]
  {
    var t := b.text[..b.cursor] + [key] + b.text[b.cursor..];
    assert t[..b.cursor] == b.text[..b.cursor];
    assert t[b.cursor + 1..] == b.text[b.cursor..];
  }

  /** Typing fails exactly when the bar is focused and its cursor is outside the text. */
  lemma TypedFailsIff(b: AddressBar, key: char)
    ensures Typed(b, key).Fail? <==> b.focused && !(0 <= b.cursor <= |b.text|)
  {
  }

  /**
   * `keyPressed(keyCode)` on the bar for every key but Enter, as written:
   * Backspace after the first character removes the one before the cursor;
   * Delete before the end removes the one at the cursor and also moves the
   * cursor back; Escape drops the focus; Left and Right move within the
   * text; other keys change nothing. `removeRange` throws on a position
   * outside the text.
   */
  function EditedAsWritten(b: AddressBar, keyCode: int): (r: Outcome<AddressBar>)
    requires b.focused
  {
    if keyCode == VkBackSpace && b.cursor > 0 then
      if b.cursor > |b.text| then Fail(IndexOutOfBounds)
      else Ok(b.(text := b.text[..b.cursor - 1] + b.text[b.cursor..], cursor := b.cursor - 1))
    else if keyCode == VkDelete && b.cursor < |b.text| then
      if b.cursor < 0 then Fail(IndexOutOfBounds)
      else Ok(b.(text := b.text[..b.cursor] + b.text[b.cursor + 1..], cursor := b.cursor - 1))
    else if keyCode == VkEscape then Ok(b.(focused := false))
    else if keyCode == VkLeft then Ok(b.(cursor := Max(b.cursor - 1, 0)))
    else if keyCode == VkRight then Ok(b.(cursor := Min(b.cursor + 1, |b.text|)))
    else Ok(b)
  }

  /** The same editor with Delete leaving the cursor where it is. */
  function Edited(b: AddressBar, keyCode: int): (r: Outcome<AddressBar>)
    requires b.focused
  {
    if keyCode == VkBackSpace && b.cursor > 0 then
      if b.cursor > |b.text| then Fail(IndexOutOfBounds)
      else Ok(b.(text := b.text[..b.cursor - 1] + b.text[b.cursor..], cursor := b.cursor - 1))
    else if keyCode == VkDelete && b.cursor < |b.text| then
      if b.cursor < 0 then Fail(IndexOutOfBounds)
      else Ok(b.(text := b.text[..b.cursor] + b.text[b.cursor + 1..]))
    else if keyCode == VkEscape then Ok(b.(focused := false))
    else if keyCode == VkLeft then Ok(b.(cursor := Max(b.cursor - 1, 0)))
    else if keyCode == VkRight then Ok(b.(cursor := Min(b.cursor + 1, |b.text|)))
    else Ok(b)
  }

  /** Every edit of an editable bar succeeds and leaves it editable, with the text unchanged but for the one removed character. */
  lemma EditedKeepsEditable(b: AddressBar, keyCode: int)
    requires b.focused && b.Editable()
    ensures var r := Edited(b, keyCode);
      r.Ok? && r.value.Editable()
      && (keyCode == VkBackSpace && b.cursor > 0 ==>
            r.value.text == b.text[..b.cursor - 1] + b.text[b.cursor..] && r.value.cursor == b.cursor - 1)
      && (keyCode == VkDelete && b.cursor < |b.text| ==>
            r.value.text == b.text[..b.cursor] + b.text[b.cursor + 1..] && r.value.cursor == b.cursor)
      && (keyCode != VkBackSpace && keyCode != VkDelete ==> r.value.text == b.text)
      && (r.value.focused <==> keyCode != VkEscape)
  {
  }

  /**
   * As written, Delete at the start of a one-character text leaves the
   * cursor at -1, and the next typed key then throws.
   */
  lemma DeleteAsWrittenBreaksTyping()
    ensures var b := AddressBar(true, "a", 0);
      var r := EditedAsWritten(b, VkDelete);
      r.Ok? && r.value.cursor == -1 && !r.value.Editable() && Typed(r.value, 'x').Fail?
  {
  }

  /**
   * Every edit as written keeps the cursor no further than one before the
   * text, and fails only when it sits there and Delete is pressed.
   */
  lemma EditedAsWrittenStaysReachable(b: AddressBar, keyCode: int)
    requires b.focused && b.Reachable()
    ensures var r := EditedAsWritten(b, keyCode);
      (r.Fail? <==> keyCode == VkDelete && b.cursor == -1) &&
      (r.Ok? ==> r.value.Reachable())
  {
  }

  /** Typing keeps the cursor reachable, and fails only when it sits before the text. */
  lemma TypedStaysReachable(b: AddressBar, key: char)
    requires b.focused && b.Reachable()
    ensures var r := Typed(b, key);
      (r.Fail? <==> b.cursor == -1) && (r.Ok? ==> r.value.Reachable())
  {
  }

  /** As written, Delete is the only edit that can take an editable bar out of range: the others agree with `Edited`. */
  lemma AsWrittenDiffersOnlyOnDelete(b: AddressBar, keyCode: int)
    requires b.focused
    ensures keyCode != VkDelete ==> EditedAsWritten(b, keyCode) == Edited(b, keyCode)
  {
  }

  // ------------------------------------------------------------ the chrome

  class Chrome {
    const browser: Browser
    const metrics: Metrics
    var addressRect: Rectangle
    /** `focus == "adress bar"` */
    var focused: bool
    var addressBar: string
    var cursorPos: int

    function Bar(): AddressBar
      reads this
    {
      AddressBar(focused, addressBar, cursorPos)
    }

    ghost predicate Valid()
      reads this, browser, browser.tabs, browser.activeTab
    {
      browser.Valid() && Bar().Reachable()
    }

    /** `Chrome(browser)`: the buttons from the font metrics, the address bar spanning the panel's `width`. */
    constructor (browser: Browser, metrics: Metrics, width: int)
      requires browser.Valid()
      ensures Valid() && this.browser == browser && this.metrics == metrics
      ensures addressRect == AddressRect(metrics, width) && Bar() == AddressBar(false, "", 0)
    {
      this.browser := browser;
      this.metrics := metrics;
      addressRect := AddressRect(metrics, width);
      focused := false;
      addressBar := "";
      cursorPos := 0;
    }

    /** `resize()`: the address bar follows the panel's new width. */
    method Resize(width: int)
      modifies this
      ensures addressRect == AddressRect(metrics, width) && Bar() == old(Bar())
    {
      addressRect := AddressRect(metrics, width);
    }

    /** `blur()` */
    method Blur()
      modifies this
      ensures Bar() == old(Bar()).(focused := false) && addressRect == old(addressRect)
    {
      focused := false;
    }

    /**
     * `mouseClicked(button, x, y)`: the focus is dropped, then the first
     * control holding the point acts: `+` opens a tab, `<` and `>` move the
     * active tab through its history, the address bar takes the focus with
     * an empty text, and a tab is made active (first button) or removed from
     * the list (second button), the active tab left as it was.
     */
    method MouseClicked(button: int, x: int, y: int, page: Page, originOf: string -> string) returns (r: Outcome<()>)
      requires Valid()
      modifies this, browser, browser.activeTab
      ensures Valid() && addressRect == old(addressRect)
      ensures NewTabRect(metrics).Contains(x, y) ==>
        r == Ok(()) && Bar() == old(Bar()).(focused := false) && browser.activeTab != null
        && fresh(browser.activeTab) && browser.tabs == old(browser.tabs) + [browser.activeTab]
        && browser.activeTab.rawUrl == NewTabUrl
      ensures !NewTabRect(metrics).Contains(x, y) && (BackRect(metrics).Contains(x, y) || ForwardRect(metrics).Contains(x, y)) ==>
        r == Ok(()) && Bar() == old(Bar()).(focused := false)
        && browser.tabs == old(browser.tabs) && browser.activeTab == old(browser.activeTab)
      ensures !NewTabRect(metrics).Contains(x, y) && BackRect(metrics).Contains(x, y) && browser.activeTab != null ==>
        browser.activeTab.historyIndex == if old(browser.activeTab.CanGoBack()) then old(browser.activeTab.historyIndex) - 1 else old(browser.activeTab.historyIndex)
      ensures !NewTabRect(metrics).Contains(x, y) && !BackRect(metrics).Contains(x, y) && ForwardRect(metrics).Contains(x, y) && browser.activeTab != null ==>
        browser.activeTab.historyIndex == if old(browser.activeTab.CanGoForward()) then old(browser.activeTab.historyIndex) + 1 else old(browser.activeTab.historyIndex)
      ensures !NewTabRect(metrics).Contains(x, y) && !BackRect(metrics).Contains(x, y) && !ForwardRect(metrics).Contains(x, y) ==>
        r == Ok(()) &&
        if old(addressRect).Contains(x, y) then
          Bar() == AddressBar(true, "", 0) && browser.tabs == old(browser.tabs) && browser.activeTab == old(browser.activeTab)
        else
          Bar() == old(Bar()).(focused := false) &&
          var i := FirstTabAt(metrics, |old(browser.tabs)|, x, y, 0);
          (i >= 0 && button == Button1 ==> browser.tabs == old(browser.tabs) && browser.activeTab == old(browser.tabs)[i]) &&
          (i >= 0 && button == Button2 ==> browser.tabs == RemovedAt(old(browser.tabs), i) && browser.activeTab == old(browser.activeTab)) &&
          (i < 0 || (button != Button1 && button != Button2) ==> browser.tabs == old(browser.tabs) && browser.activeTab == old(browser.activeTab))
    {
      focused := false;
      r := Ok(());
      if NewTabRect(metrics).Contains(x, y) {
        r := browser.NewTab(NewTabUrl, page, originOf);
      } else if BackRect(metrics).Contains(x, y) {
        var tab := browser.activeTab;
        if tab != null {
          tab.GoBack(page, originOf);
        }
      } else if ForwardRect(metrics).Contains(x, y) {
        var tab := browser.activeTab;
        if tab != null {
          tab.GoForward(page, originOf);
        }
      } else if addressRect.Contains(x, y) {
        focused := true;
        addressBar := "";
        cursorPos := 0;
      } else {
        ClickTabStrip(button, x, y);
      }
    }

    /** The tab strip's part of `mouseClicked`: the first tab holding the point is made active or removed. */
    method ClickTabStrip(button: int, x: int, y: int)
      requires browser.Valid()
      modifies browser
      ensures browser.Valid()
      ensures var i := FirstTabAt(metrics, |old(browser.tabs)|, x, y, 0);
        (i >= 0 && button == Button1 ==> browser.tabs == old(browser.tabs) && browser.activeTab == old(browser.tabs)[i]) &&
        (i >= 0 && button == Button2 ==> browser.tabs == RemovedAt(old(browser.tabs), i) && browser.activeTab == old(browser.activeTab)) &&
        (i < 0 || (button != Button1 && button != Button2) ==> browser.tabs == old(browser.tabs) && browser.activeTab == old(browser.activeTab))
    {
      var i := FirstTabAt(metrics, |browser.tabs|, x, y, 0);
      if i >= 0 {
        if button == Button1 {
          browser.activeTab := browser.tabs[i];
        } else if button == Button2 {
          ghost var before := browser.tabs;
          browser.tabs := browser.tabs[..i] + browser.tabs[i + 1..];
          assert forall t :: t in browser.tabs ==> t in before;
        }
      }
    }

    /**
     * `keyTyped(key)`: inserts the key when the bar is focused, and says
     * whether it did; a cursor before the text makes `substring` throw.
     */
    method KeyTyped(key: char) returns (r: Outcome<bool>)
      requires Valid()
      modifies this
      ensures Valid() && addressRect == old(addressRect)
      ensures var t := Typed(old(Bar()), key);
        (t.Ok? ==> r == Ok(old(focused)) && Bar() == t.value) &&
        (t.Fail? ==> r == Fail(t.exc) && Bar() == old(Bar()))
    {
      if focused {
        if cursorPos < 0 {
          return Fail(IndexOutOfBounds);
        }
        addressBar := addressBar[..cursorPos] + [key] + addressBar[cursorPos..];
        cursorPos := cursorPos + 1;
        return Ok(true);
      }
      return Ok(false);
    }

    /**
     * `keyPressed(keyCode)`: when the bar is focused, Enter loads its text
     * into the active tab, then empties it and drops the focus; the other
     * keys edit it. Returns whether the bar was focused; a failing load
     * propagates before the bar is cleared.
     */
    method KeyPressed(keyCode: int, page: Page, originOf: string -> string) returns (r: Outcome<bool>)
      requires Valid()
      modifies this, browser.activeTab
      ensures Valid() && addressRect == old(addressRect)
      ensures !old(focused) ==> r == Ok(false) && Bar() == old(Bar())
      ensures old(focused) && keyCode != VkEnter ==>
        var e := EditedAsWritten(old(Bar()), keyCode);
        (e.Ok? ==> r == Ok(true) && Bar() == e.value) &&
        (e.Fail? ==> r == Fail(e.exc) && Bar() == old(Bar()))
      ensures old(focused) && keyCode == VkEnter && browser.activeTab == null ==> r == Ok(true) && Bar() == AddressBar(false, "", 0)
      ensures old(focused) && keyCode == VkEnter && browser.activeTab != null ==>
        History(browser.activeTab.history, browser.activeTab.historyIndex) ==
          LoadHistoryAsWritten(old(History(browser.activeTab.history, browser.activeTab.historyIndex)), old(browser.activeTab.rawUrl), old(addressBar)) &&
        (r.Ok? ==> r == Ok(true) && Bar() == AddressBar(false, "", 0)) &&
        (r.Fail? ==> Bar() == old(Bar()))
    {
      if !focused {
        return Ok(false);
      }
      if keyCode == VkEnter {
        var loaded := LoadAddress(page, originOf);
        if loaded.Fail? {
          return Fail(loaded.exc);
        }
        addressBar := "";
        cursorPos := 0;
        focused := false;
      } else if keyCode == VkBackSpace && cursorPos > 0 {
        addressBar := addressBar[..cursorPos - 1] + addressBar[cursorPos..];
        cursorPos := cursorPos - 1;
      } else if keyCode == VkDelete && cursorPos < |addressBar| {
        if cursorPos < 0 {
          return Fail(IndexOutOfBounds);
        }
        addressBar := addressBar[..cursorPos] + addressBar[cursorPos + 1..];
        cursorPos := cursorPos - 1;
      } else if keyCode == VkEscape {
        focused := false;
      } else if keyCode == VkLeft {
        cursorPos := Max(cursorPos - 1, 0);
      } else if keyCode == VkRight {
        cursorPos := Min(cursorPos + 1, |addressBar|);
      }
      r := Ok(true);
    }

    /** `browser.activeTab?.load(addressBar)` */
    method LoadAddress(page: Page, originOf: string -> string) returns (r: Outcome<()>)
      requires Valid()
      modifies browser.activeTab
      ensures Valid()
      ensures browser.activeTab == null ==> r == Ok(())
      ensures browser.activeTab != null ==>
        History(browser.activeTab.history, browser.activeTab.historyIndex) ==
          LoadHistoryAsWritten(old(History(browser.activeTab.history, browser.activeTab.historyIndex)), old(browser.activeTab.rawUrl), addressBar)
    {
      r := Ok(());
      var tab := browser.activeTab;
      if tab != null {
        r := tab.Load(addressBar, page, originOf);
      }
    }
  }
}
