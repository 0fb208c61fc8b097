/** `SidePanelGUI` of include/SidePanel.h: an owned list of widgets and the
    four callbacks its widgets' own callbacks forward to. As for the
    widgets, a callback is recorded only as set or unset, and a method that
    stands for a widget callback returns what the panel's callback is
    called with, if it is called. */
module SidePanel {
  import opened Common
  import opened Components
  import opened GUIComponents

  const SIDE_PANEL_WIDTH: int := 200
  const SIDE_PANEL_HEIGHT: int := 600
  const BROWSER_IMAGE: string := "assets/owo.png"

  /** An owned `IGUIComponent`: the pointer to one widget. Two entries are
      equal exactly when they point to the same widget. */
  datatype Widget =
    | Label(GUILabel)
    | Slider(GUISlider)
    | Button(GUIButton)
    | Checkbox(GUICheckbox)
    | ImageBrowser(GUIImageBrowser)

  datatype BrushType = Circle | Square

  /** Each widget is owned once: a `unique_ptr` cannot be held twice. */
  predicate Unique(ws: seq<Widget>)
  {
    forall i, j :: 0 <= i < j < |ws| ==> ws[i] != ws[j]
  }

  class SidePanelGUI {
    var x: int
    var y: int
    const width: int
    const height: int
    const backgroundColor: Color
    var components: seq<Widget>
    var brushSize: int
    var brushType: BrushType
    var folded: bool
    var hasOnClear: bool
    var hasOnSave: bool
    var hasOnGridToggle: bool
    var hasOnBrushSizeChanged: bool

    ghost predicate Valid()
      reads this
    {
      Unique(components)
    }

    constructor(x: int, y: int, width: int, height: int, backgroundColor: Color)
      ensures Valid()
      ensures this.x == x && this.y == y && this.width == width && this.height == height
      ensures this.backgroundColor == backgroundColor
      ensures components == [] && brushSize == 1 && brushType == Circle && !folded
      ensures !hasOnClear && !hasOnSave && !hasOnGridToggle && !hasOnBrushSizeChanged
    {
      this.x := x;
      this.y := y;
      this.width := width;
      this.height := height;
      this.backgroundColor := backgroundColor;
      components := [];
      brushSize := 1;
      brushType := Circle;
      folded := false;
      hasOnClear := false;
      hasOnSave := false;
      hasOnGridToggle := false;
      hasOnBrushSizeChanged := false;
    }

    /** `SidePanelGUI::Init`: six new widgets go after the existing ones,
        top to bottom: the title, the brush-size slider, the clear and save
        buttons, the grid checkbox and the image browser. The new widgets
        are returned so that the contract can name them. */
    method Init() returns (title: GUILabel, sizeSlider: GUISlider, clearButton: GUIButton,
                           saveButton: GUIButton, gridCheckbox: GUICheckbox, imageBrowser: GUIImageBrowser)
      requires Valid()
      modifies this`components
      ensures Valid()
      ensures fresh(title) && fresh(sizeSlider) && fresh(clearButton) && fresh(saveButton)
      ensures fresh(gridCheckbox) && fresh(imageBrowser)
      ensures components == old(components) + [Label(title), Slider(sizeSlider), Button(clearButton),
                                               Button(saveButton), Checkbox(gridCheckbox), ImageBrowser(imageBrowser)]
      ensures title.text == "Tile Editor" && title.fontSize == 24 && title.textColor == BLACK
      ensures title.bounds == Rect(10.0, 20.0, (width - 20) as real, 30.0)
      ensures sizeSlider.minValue == 1.0 && sizeSlider.maxValue == 10.0 && sizeSlider.currentValue == 1.0
      ensures sizeSlider.labelText == "Brush Size:" && sizeSlider.hasOnValueChanged && sizeSlider.Valid()
      ensures sizeSlider.bounds == Rect(10.0, 60.0, (width - 20) as real, 20.0)
      ensures clearButton.text == "Clear All" && clearButton.color == RED && clearButton.hasOnClick
      ensures clearButton.bounds == Rect(10.0, 110.0, (width - 20) as real, 30.0)
      ensures saveButton.text == "Save" && saveButton.color == GREEN && saveButton.hasOnClick
      ensures saveButton.bounds == Rect(10.0, 150.0, (width - 20) as real, 30.0)
      ensures gridCheckbox.labelText == "Show Grid" && gridCheckbox.checked && gridCheckbox.hasOnChanged
      ensures gridCheckbox.bounds == Rect(10.0, 190.0, (width - 20) as real, 25.0)
      ensures imageBrowser.imagePaths == [BROWSER_IMAGE] && imageBrowser.currentIndex == 0
      ensures imageBrowser.texture == Some(BROWSER_IMAGE) && imageBrowser.Valid()
      ensures imageBrowser.bounds == Rect(10.0, 225.0, (width - 20) as real, 150.0)
    {
      title := NewTitle(width);
      sizeSlider := NewBrushSlider(width);
      clearButton := NewButton(width, 110, "Clear All", RED);
      saveButton := NewButton(width, 150, "Save", GREEN);
      gridCheckbox := NewGridCheckbox(width);
      imageBrowser := NewImageBrowser(width);
      var added := [Label(title), Slider(sizeSlider), Button(clearButton),
                    Button(saveButton), Checkbox(gridCheckbox), ImageBrowser(imageBrowser)];
      assert forall i :: 0 <= i < |added| ==> added[i] !in components;
      assert Unique(added);
      AppendUnique(components, added);
      components := components + added;
    }

    method SetPosition(x: int, y: int)
      modifies this`x, this`y
      ensures this.x == x && this.y == y
    {
      this.x := x;
      this.y := y;
    }

    /** `AddComponent`: the widget, which the panel now owns, goes last. */
    method AddComponent(w: Widget)
      requires Valid() && w !in components
      modifies this`components
      ensures Valid()
      ensures components == old(components) + [w]
    {
      components := components + [w];
    }

    /** `RemoveComponent`: a null pointer changes nothing; otherwise every
        entry for that widget goes and the rest keep their order. */
    method RemoveComponent(w: Option<Widget>)
      requires Valid()
      modifies this`components
      ensures Valid()
      ensures w.None? ==> components == old(components)
      ensures w.Some? ==> components == RemoveAll(old(components), w.value)
    {
      if w.None? {
        return;
      }
      RemovePreservesUnique(components, w.value);
      components := RemoveAll(components, w.value);
    }

    /** `Cleanup`: the panel lets go of every widget. */
    method Cleanup()
      modifies this`components
      ensures Valid() && components == []
    {
      components := [];
    }

    method SetOnClearCallback(isSet: bool)
      modifies this`hasOnClear
      ensures hasOnClear == isSet
    {
      hasOnClear := isSet;
    }

    method SetOnSaveCallback(isSet: bool)
      modifies this`hasOnSave
      ensures hasOnSave == isSet
    {
      hasOnSave := isSet;
    }

    method SetOnGridToggleCallback(isSet: bool)
      modifies this`hasOnGridToggle
      ensures hasOnGridToggle == isSet
    {
      hasOnGridToggle := isSet;
    }

    method SetOnBrushSizeChanged(isSet: bool)
      modifies this`hasOnBrushSizeChanged
      ensures hasOnBrushSizeChanged == isSet
    {
      hasOnBrushSizeChanged := isSet;
    }

    /** The slider's callback: the brush size becomes the value truncated to
        an integer, and is passed on only if the panel's callback is set. */
    method OnSliderValueChanged(value: real) returns (forwarded: Option<int>)
      modifies this`brushSize
      ensures brushSize == Trunc(value)
      ensures forwarded == if hasOnBrushSizeChanged then Some(brushSize) else None
    {
      brushSize := Trunc(value);
      forwarded := None;
      if hasOnBrushSizeChanged {
        forwarded := Some(brushSize);
      }
    }

    /** The clear button's callback: calls the panel's clear callback when
        it is set, and does nothing otherwise. */
    method OnClearClicked() returns (called: bool)
      ensures called == hasOnClear
    {
      called := false;
      if hasOnClear {
        called := true;
      }
    }

    /** The save button's callback, likewise. */
    method OnSaveClicked() returns (called: bool)
      ensures called == hasOnSave
    {
      called := false;
      if hasOnSave {
        called := true;
      }
    }

    /** The checkbox's callback passes the new state on, when set. */
    method OnGridChanged(checked: bool) returns (forwarded: Option<bool>)
      ensures forwarded == if hasOnGridToggle then Some(checked) else None
    {
      forwarded := None;
      if hasOnGridToggle {
        forwarded := Some(checked);
      }
    }
  }

  /** The title label of `Init`, 20 pixels from the top. */
  method NewTitle(width: int) returns (title: GUILabel)
    ensures fresh(title)
    ensures title.text == "Tile Editor" && title.fontSize == 24 && title.textColor == BLACK
    ensures title.bounds == Rect(10.0, 20.0, (width - 20) as real, 30.0)
  {
    title := new GUILabel(Rect(10.0, 20.0, (width - 20) as real, 30.0), "Tile Editor", BLACK, 24);
  }

  /** The brush-size slider of `Init`, from 1 to 10 and starting at 1, its
      callback set. */
  method NewBrushSlider(width: int) returns (slider: GUISlider)
    ensures fresh(slider)
    ensures slider.minValue == 1.0 && slider.maxValue == 10.0 && slider.currentValue == 1.0
    ensures slider.labelText == "Brush Size:" && slider.hasOnValueChanged && slider.Valid()
    ensures slider.bounds == Rect(10.0, 60.0, (width - 20) as real, 20.0)
  {
    slider := new GUISlider(Rect(10.0, 60.0, (width - 20) as real, 20.0), 1.0, 10.0, 1.0, "Brush Size:");
    slider.SetOnValueChanged(true);
  }

  /** A 30-pixel button of `Init` at height `top`, its callback set. */
  method NewButton(width: int, top: int, text: string, color: Color) returns (button: GUIButton)
    ensures fresh(button)
    ensures button.text == text && button.color == color && button.hasOnClick
    ensures button.bounds == Rect(10.0, top as real, (width - 20) as real, 30.0)
  {
    button := new GUIButton(Rect(10.0, top as real, (width - 20) as real, 30.0), text, color);
    button.SetOnClick(true);
  }

  /** The grid checkbox of `Init`, checked, its callback set. */
  method NewGridCheckbox(width: int) returns (checkbox: GUICheckbox)
    ensures fresh(checkbox)
    ensures checkbox.labelText == "Show Grid" && checkbox.checked && checkbox.hasOnChanged
    ensures checkbox.bounds == Rect(10.0, 190.0, (width - 20) as real, 25.0)
  {
    checkbox := new GUICheckbox(Rect(10.0, 190.0, (width - 20) as real, 25.0), "Show Grid", true);
    checkbox.SetOnChanged(true);
  }

  /** The image browser of `Init`, holding the one bundled image. */
  method NewImageBrowser(width: int) returns (browser: GUIImageBrowser)
    ensures fresh(browser)
    ensures browser.imagePaths == [BROWSER_IMAGE] && browser.currentIndex == 0
    ensures browser.texture == Some(BROWSER_IMAGE) && browser.Valid()
    ensures browser.bounds == Rect(10.0, 225.0, (width - 20) as real, 150.0)
  {
    browser := new GUIImageBrowser(Rect(10.0, 225.0, (width - 20) as real, 150.0), []);
    browser.AddImage(BROWSER_IMAGE);
  }

  lemma AppendUnique(ws: seq<Widget>, vs: seq<Widget>)
    requires Unique(ws) && Unique(vs)
    requires forall i :: 0 <= i < |vs| ==> vs[i] !in ws
    ensures Unique(ws + vs)
  {
    forall i, j | 0 <= i < j < |ws + vs|
      ensures (ws + vs)[i] != (ws + vs)[j]
    {
      if j >= |ws| && i < |ws| {
        assert (ws + vs)[j] == vs[j - |ws|];
        assert (ws + vs)[i] in ws;
      }
    }
  }

  /** Removing keeps the remaining widgets owned once each. */
  lemma {:induction false} RemovePreservesUnique(ws: seq<Widget>, w: Widget)
    requires Unique(ws)
    ensures Unique(RemoveAll(ws, w))
  {
    if ws != [] {
      assert Unique(ws[1..]);
      RemovePreservesUnique(ws[1..], w);
      if ws[0] != w {
        assert ws[0] !in ws[1..];
        RemoveAllSubset(ws[1..], w);
      }
    }
  }

  lemma RemoveAllSubset(ws: seq<Widget>, w: Widget)
    ensures forall v :: v in RemoveAll(ws, w) ==> v in ws
  {
  }

  /** In a panel's list, removing a widget it holds shortens the list by
      exactly one, and removing one it does not hold changes nothing. */
  lemma RemoveOwned(ws: seq<Widget>, w: Widget)
    requires Unique(ws)
    ensures w in ws ==> |RemoveAll(ws, w)| == |ws| - 1
    ensures w !in ws ==> RemoveAll(ws, w) == ws
    ensures w !in RemoveAll(ws, w)
  {
    RemoveAllCount(ws, w);
    if w in ws {
      UniqueCount(ws, w);
    } else {
      RemoveAllAbsent(ws, w);
    }
  }

  lemma {:induction false} UniqueCount(ws: seq<Widget>, w: Widget)
    requires Unique(ws) && w in ws
    ensures multiset(ws)[w] == 1
  {
    assert ws == [ws[0]] + ws[1..];
    assert multiset(ws) == multiset{ws[0]} + multiset(ws[1..]);
    assert Unique(ws[1..]);
    if ws[0] == w {
      assert w !in ws[1..];
    } else {
      UniqueCount(ws[1..], w);
    }
  }
}
