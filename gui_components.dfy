/** The widgets of include/GUIComponents.h with their shared state from
    include/GUI.h (bounds, visible, enabled). Input arrives as one mouse
    sample per call; raylib's point-in-rectangle test and `MeasureText` are
    parameters, and a `std::function` callback is recorded only as set or
    unset: a `HandleInput` returns the argument the callback is called
    with, if it is called. */
module GUIComponents {
  import opened Common
  import opened Components

  const DEFAULT_FONT_SIZE: int := 20
  const MAX_FONT_SIZE: int := 20
  const MIN_FONT_SIZE: int := 8
  const LABEL_FONT_SIZE: int := 18
  const CHECKBOX_SIZE: real := 20.0
  const SLIDER_HANDLE_RADIUS: real := 8.0
  const SLIDER_HANDLE_AREA_HEIGHT: real := 16.0
  const NAV_BUTTON_WIDTH: real := 60.0
  const NAV_BUTTON_HEIGHT: real := 20.0
  const NAV_BUTTON_MARGIN: real := 10.0
  const NAV_BUTTON_BOTTOM_OFFSET: real := 30.0
  const NAV_BUTTON_RIGHT_OFFSET: real := 70.0

  const GRAY: Color := Color(130, 130, 130, 255)
  const DARKGRAY: Color := Color(80, 80, 80, 255)

  /** One sample of the mouse: its position and the left button's state. */
  datatype Mouse = Mouse(position: Vec2, leftDown: bool, leftPressed: bool, leftReleased: bool)

  /** `GetFittingFontSize`: the size steps down from `maxFontSize` until the
      text measures no wider than `maxWidth`, but not below `minFontSize`.
      Every larger size up to the maximum was too wide, and the result fits
      unless the search stopped at the minimum. */
  method GetFittingFontSize(text: string, maxWidth: int, maxFontSize: int, minFontSize: int,
                            measure: (string, int) -> int) returns (fontSize: int)
    ensures fontSize <= maxFontSize
    ensures maxFontSize >= minFontSize ==> fontSize >= minFontSize
    ensures maxFontSize < minFontSize ==> fontSize == maxFontSize
    ensures forall s :: fontSize < s <= maxFontSize ==> measure(text, s) > maxWidth
    ensures measure(text, fontSize) <= maxWidth || fontSize <= minFontSize
    ensures measure(text, maxFontSize) <= maxWidth ==> fontSize == maxFontSize
  {
    fontSize := maxFontSize;
    var textWidth := measure(text, fontSize);
    while textWidth > maxWidth && fontSize > minFontSize
      invariant fontSize <= maxFontSize
      invariant maxFontSize >= minFontSize ==> fontSize >= minFontSize
      invariant maxFontSize < minFontSize ==> fontSize == maxFontSize
      invariant textWidth == measure(text, fontSize)
      invariant forall s :: fontSize < s <= maxFontSize ==> measure(text, s) > maxWidth
      decreases fontSize - minFontSize
    {
      fontSize := fontSize - 1;
      textWidth := measure(text, fontSize);
    }
  }

  /** `GUIButton`. */
  class GUIButton {
    var bounds: Rect
    var visible: bool
    var enabled: bool
    const text: string
    const color: Color
    const textColor: Color
    const hoverColor: Color
    const clickedColor: Color
    var isHovered: bool
    var isClicked: bool
    var hasOnClick: bool

    constructor(bounds: Rect, text: string, color: Color)
      ensures this.bounds == bounds && this.text == text && this.color == color
      ensures textColor == BLACK && hoverColor == GRAY && clickedColor == DARKGRAY
      ensures visible && enabled && !isHovered && !isClicked && !hasOnClick
    {
      this.bounds := bounds;
      this.text := text;
      this.color := color;
      textColor := BLACK;
      hoverColor := GRAY;
      clickedColor := DARKGRAY;
      visible := true;
      enabled := true;
      isHovered := false;
      isClicked := false;
      hasOnClick := false;
    }

    method SetOnClick(isSet: bool)
      modifies this`hasOnClick
      ensures hasOnClick == isSet
    {
      hasOnClick := isSet;
    }

    /** `GUIButton::HandleInput`: hovering follows the mouse, the button
        shows as held while hovered with the left button down, and the
        callback fires on a left press over it. A disabled button changes
        nothing. The result says whether the callback was called. */
    method HandleInput(mouse: Mouse, inside: (Vec2, Rect) -> bool) returns (clicked: bool)
      modifies this`isHovered, this`isClicked
      ensures !enabled ==> !clicked && isHovered == old(isHovered) && isClicked == old(isClicked)
      ensures enabled ==> isHovered == inside(mouse.position, bounds)
      ensures enabled ==> isClicked == (isHovered && mouse.leftDown)
      ensures clicked <==> enabled && inside(mouse.position, bounds) && mouse.leftPressed && hasOnClick
    {
      clicked := false;
      if !enabled {
        return;
      }
      isHovered := inside(mouse.position, bounds);
      isClicked := isHovered && mouse.leftDown;
      if isHovered && mouse.leftPressed {
        if hasOnClick {
          clicked := true;
        }
      }
    }
  }

  /** `GUILabel`: text that ignores input. */
  class GUILabel {
    var bounds: Rect
    var visible: bool
    var enabled: bool
    var text: string
    const textColor: Color
    const fontSize: int

    constructor(bounds: Rect, text: string, textColor: Color, fontSize: int)
      ensures this.bounds == bounds && this.text == text && this.textColor == textColor && this.fontSize == fontSize
      ensures visible && enabled
    {
      this.bounds := bounds;
      this.text := text;
      this.textColor := textColor;
      this.fontSize := fontSize;
      visible := true;
      enabled := true;
    }

    function GetText(): string
      reads this
    {
      text
    }

    /** `SetText`: `GetText` then returns the new text. */
    method SetText(t: string)
      modifies this`text
      ensures GetText() == t
    {
      text := t;
    }
  }

  /** `GUICheckbox`: the box is the `CHECKBOX_SIZE` square at the top left
      of the bounds. */
  class GUICheckbox {
    var bounds: Rect
    var visible: bool
    var enabled: bool
    const labelText: string
    var checked: bool
    const checkColor: Color
    var hasOnChanged: bool

    constructor(bounds: Rect, labelText: string, checked: bool)
      ensures this.bounds == bounds && this.labelText == labelText && this.checked == checked
      ensures checkColor == GREEN && visible && enabled && !hasOnChanged
    {
      this.bounds := bounds;
      this.labelText := labelText;
      this.checked := checked;
      checkColor := GREEN;
      visible := true;
      enabled := true;
      hasOnChanged := false;
    }

    function BoxRect(): Rect
      reads this
    {
      Rect(bounds.x, bounds.y, CHECKBOX_SIZE, CHECKBOX_SIZE)
    }

    function IsChecked(): bool
      reads this
    {
      checked
    }

    method SetChecked(c: bool)
      modifies this`checked
      ensures IsChecked() == c
    {
      checked := c;
    }

    method SetOnChanged(isSet: bool)
      modifies this`hasOnChanged
      ensures hasOnChanged == isSet
    {
      hasOnChanged := isSet;
    }

    /** `GUICheckbox::HandleInput`: a left press on the box flips the state
        and hands the new state to the callback, if there is one. */
    method HandleInput(mouse: Mouse, inside: (Vec2, Rect) -> bool) returns (reported: Option<bool>)
      modifies this`checked
      ensures var hit := enabled && inside(mouse.position, BoxRect()) && mouse.leftPressed;
        && checked == (old(checked) != hit)
        && reported == if hit && hasOnChanged then Some(checked) else None
    {
      reported := None;
      if !enabled {
        return;
      }
      if inside(mouse.position, BoxRect()) && mouse.leftPressed {
        checked := !checked;
        if hasOnChanged {
          reported := Some(checked);
        }
      }
    }
  }

  /** The index after "next" in a list of `n` images: one on, wrapping
      round; with fewer than two images it stays. */
  function NextIndex(i: nat, n: nat): nat
  {
    if n > 1 then (i + 1) % n else i
  }

  /** The index after "previous": `(i - 1 + n) % n` on `size_t`. For
      `i < n` the unsigned wrap of `i - 1` is undone by `+ n`, so this is
      the plain integer value. */
  function PrevIndex(i: nat, n: nat): nat
  {
    if n > 1 then (i + n - 1) % n else i
  }

  /** Both steps keep the index in range and undo each other, and they
      wrap at the ends. */
  lemma IndexSteps(i: nat, n: nat)
    requires i < n
    ensures NextIndex(i, n) < n && PrevIndex(i, n) < n
    ensures PrevIndex(NextIndex(i, n), n) == i
    ensures NextIndex(PrevIndex(i, n), n) == i
    ensures n > 1 && i == n - 1 ==> NextIndex(i, n) == 0
    ensures n > 1 && i == 0 ==> PrevIndex(i, n) == n - 1
  {
    if n > 1 {
      if i + 1 < n {
        DivModUnique(i + 1, n, 0, i + 1);
        DivModUnique(i + 1 + n - 1, n, 1, i);
      } else {
        DivModUnique(i + 1, n, 1, 0);
        DivModUnique(n - 1, n, 0, n - 1);
      }
      if i > 0 {
        DivModUnique(i + n - 1, n, 1, i - 1);
        DivModUnique(i, n, 0, i);
      } else {
        DivModUnique(n - 1, n, 0, n - 1);
        DivModUnique(n, n, 1, 0);
      }
    }
  }

  /** The image `LoadCurrentImage` asks for: the path at the current index,
      if there is one. */
  function CurrentImage(paths: seq<string>, i: nat): Option<string>
  {
    if |paths| > 0 && i < |paths| then Some(paths[i]) else None
  }

  /** `GUIImageBrowser`. The texture is recorded as the path it was loaded
      from. */
  class GUIImageBrowser {
    var bounds: Rect
    var visible: bool
    var enabled: bool
    var imagePaths: seq<string>
    var currentIndex: nat
    var texture: Option<string>

    /** The index is in range whenever there are images, and the texture
        is always the one for the current index. */
    ghost predicate Valid()
      reads this
    {
      (currentIndex < |imagePaths| || currentIndex == 0)
      && texture == CurrentImage(imagePaths, currentIndex)
    }

    constructor(bounds: Rect, imagePaths: seq<string>)
      ensures Valid()
      ensures this.bounds == bounds && this.imagePaths == imagePaths && currentIndex == 0
      ensures visible && enabled
      ensures texture == if |imagePaths| > 0 then Some(imagePaths[0]) else None
    {
      this.bounds := bounds;
      this.imagePaths := imagePaths;
      currentIndex := 0;
      visible := true;
      enabled := true;
      texture := None;
      new;
      LoadCurrentImage();
    }

    /** `LoadCurrentImage`: drops the old texture and loads the current
        index's image, if the index is in range. */
    method LoadCurrentImage()
      modifies this`texture
      ensures texture == CurrentImage(imagePaths, currentIndex)
    {
      if texture.Some? {
        texture := None;
      }
      if |imagePaths| > 0 && currentIndex < |imagePaths| {
        texture := Some(imagePaths[currentIndex]);
      }
    }

    /** `AddImage`: the path goes last and the index stays; only the first
        image causes a load. */
    method AddImage(imagePath: string)
      requires Valid()
      modifies this`imagePaths, this`texture
      ensures Valid()
      ensures imagePaths == old(imagePaths) + [imagePath]
      ensures |old(imagePaths)| == 0 ==> texture == Some(imagePath)
      ensures |old(imagePaths)| > 0 ==> texture == old(texture)
    {
      imagePaths := imagePaths + [imagePath];
      if |imagePaths| == 1 {
        LoadCurrentImage();
      }
    }

    /** `SetImages`: a new list, shown from its first image. */
    method SetImages(paths: seq<string>)
      modifies this`imagePaths, this`currentIndex, this`texture
      ensures Valid()
      ensures imagePaths == paths && currentIndex == 0
    {
      imagePaths := paths;
      currentIndex := 0;
      LoadCurrentImage();
    }

    /** `NextImage`. */
    method NextImage()
      requires Valid()
      modifies this`currentIndex, this`texture
      ensures Valid()
      ensures currentIndex == NextIndex(old(currentIndex), |imagePaths|)
      ensures |imagePaths| <= 1 ==> texture == old(texture)
    {
      if |imagePaths| > 1 {
        IndexSteps(currentIndex, |imagePaths|);
        currentIndex := (currentIndex + 1) % |imagePaths|;
        LoadCurrentImage();
      }
    }

    /** `PreviousImage`. */
    method PreviousImage()
      requires Valid()
      modifies this`currentIndex, this`texture
      ensures Valid()
      ensures currentIndex == PrevIndex(old(currentIndex), |imagePaths|)
      ensures |imagePaths| <= 1 ==> texture == old(texture)
    {
      if |imagePaths| > 1 {
        IndexSteps(currentIndex, |imagePaths|);
        currentIndex := (currentIndex + |imagePaths| - 1) % |imagePaths|;
        LoadCurrentImage();
      }
    }

    function PrevButton(): Rect
      reads this
    {
      Rect(bounds.x + NAV_BUTTON_MARGIN, bounds.y + bounds.height - NAV_BUTTON_BOTTOM_OFFSET, NAV_BUTTON_WIDTH, NAV_BUTTON_HEIGHT)
    }

    function NextButton(): Rect
      reads this
    {
      Rect(bounds.x + bounds.width - NAV_BUTTON_RIGHT_OFFSET, bounds.y + bounds.height - NAV_BUTTON_BOTTOM_OFFSET, NAV_BUTTON_WIDTH, NAV_BUTTON_HEIGHT)
    }

    /** `GUIImageBrowser::HandleInput`: with two or more images, a left
        press on "Prev" steps back, and otherwise one on "Next" steps on. */
    method HandleInput(mouse: Mouse, inside: (Vec2, Rect) -> bool)
      requires Valid()
      modifies this`currentIndex, this`texture
      ensures Valid()
      ensures var n := |imagePaths|;
        var prev := enabled && n > 1 && inside(mouse.position, PrevButton()) && mouse.leftPressed;
        var next := enabled && n > 1 && !prev && inside(mouse.position, NextButton()) && mouse.leftPressed;
        currentIndex == if prev then PrevIndex(old(currentIndex), n)
                        else if next then NextIndex(old(currentIndex), n)
                        else old(currentIndex)
      ensures currentIndex == old(currentIndex) ==> texture == old(texture)
    {
      if !enabled || |imagePaths| == 0 {
        return;
      }
      if |imagePaths| > 1 {
        if inside(mouse.position, PrevButton()) && mouse.leftPressed {
          PreviousImage();
        } else if inside(mouse.position, NextButton()) && mouse.leftPressed {
          NextImage();
        }
      }
    }
  }

  /** Scaling a position in `[0, 1]` into `[lo, hi]`. */
  lemma ScaleInRange(t: real, lo: real, hi: real)
    requires 0.0 <= t <= 1.0 && lo <= hi
    ensures lo <= lo + t * (hi - lo) <= hi
  {
    MulNonNegative(t, hi - lo);
    MulNonNegative(1.0 - t, hi - lo);
  }

  lemma MulNonNegative(x: real, y: real)
    requires x >= 0.0 && y >= 0.0
    ensures x * y >= 0.0
  {
  }

  /** The value a drag to `mouseX` selects: the relative position along the
      track, clamped to `[0, 1]`, scaled into the slider's range. Left of
      the track gives the minimum and right of it the maximum. */
  function DragValue(bounds: Rect, minValue: real, maxValue: real, mouseX: real): (v: real)
    requires bounds.width != 0.0 && minValue <= maxValue
    ensures minValue <= v <= maxValue
    ensures bounds.width > 0.0 && mouseX <= bounds.x ==> v == minValue
    ensures bounds.width > 0.0 && mouseX >= bounds.x + bounds.width ==> v == maxValue
  {
    var t := Clamp((mouseX - bounds.x) / bounds.width, 0.0, 1.0);
    ScaleInRange(t, minValue, maxValue);
    assert bounds.width > 0.0 && mouseX <= bounds.x ==> (mouseX - bounds.x) / bounds.width <= 0.0;
    assert bounds.width > 0.0 && mouseX >= bounds.x + bounds.width ==> (mouseX - bounds.x) / bounds.width >= 1.0;
    minValue + t * (maxValue - minValue)
  }

  /** `GUISlider`. */
  class GUISlider {
    var bounds: Rect
    var visible: bool
    var enabled: bool
    const minValue: real
    const maxValue: real
    var currentValue: real
    const labelText: string
    var isDragging: bool
    var hasOnValueChanged: bool

    /** The value stays within the range. */
    ghost predicate Valid()
      reads this
    {
      minValue <= currentValue <= maxValue
    }

    /** The constructor clamps the initial value; like `std::clamp` it needs
        `minValue <= maxValue`. */
    constructor(bounds: Rect, minValue: real, maxValue: real, currentValue: real, labelText: string)
      requires minValue <= maxValue
      ensures Valid()
      ensures this.bounds == bounds && this.minValue == minValue && this.maxValue == maxValue && this.labelText == labelText
      ensures this.currentValue == Clamp(currentValue, minValue, maxValue)
      ensures visible && enabled && !isDragging && !hasOnValueChanged
    {
      this.bounds := bounds;
      this.minValue := minValue;
      this.maxValue := maxValue;
      this.labelText := labelText;
      this.currentValue := Clamp(currentValue, minValue, maxValue);
      isDragging := false;
      visible := true;
      enabled := true;
      hasOnValueChanged := false;
    }

    function GetValue(): real
      reads this
    {
      currentValue
    }

    /** `SetValue` clamps; a value already in range reads back as given. */
    method SetValue(value: real)
      requires Valid()
      modifies this`currentValue
      ensures Valid()
      ensures GetValue() == Clamp(value, minValue, maxValue)
      ensures minValue <= value <= maxValue ==> GetValue() == value
    {
      currentValue := Clamp(value, minValue, maxValue);
    }

    method SetOnValueChanged(isSet: bool)
      modifies this`hasOnValueChanged
      ensures hasOnValueChanged == isSet
    {
      hasOnValueChanged := isSet;
    }

    /** The strip around the track where a press starts a drag. */
    function HandleArea(): Rect
      reads this
    {
      Rect(bounds.x, bounds.y + bounds.height / 2.0 - SLIDER_HANDLE_RADIUS, bounds.width, SLIDER_HANDLE_AREA_HEIGHT)
    }

    /** `GUISlider::HandleInput`: a left press on the handle area starts a
        drag and a release ends it (a release wins over a press in the same
        sample); while dragging the value follows the mouse, and a change is
        reported to the callback. */
    method HandleInput(mouse: Mouse, inside: (Vec2, Rect) -> bool) returns (reported: Option<real>)
      requires Valid() && bounds.width != 0.0
      modifies this`isDragging, this`currentValue
      ensures Valid()
      ensures !enabled ==> reported == None && isDragging == old(isDragging) && currentValue == old(currentValue)
      ensures enabled ==> isDragging == (!mouse.leftReleased && (old(isDragging) || (mouse.leftPressed && inside(mouse.position, HandleArea()))))
      ensures enabled && isDragging ==> currentValue == DragValue(bounds, minValue, maxValue, mouse.position.x)
      ensures enabled && !isDragging ==> currentValue == old(currentValue)
      ensures reported.Some? <==> enabled && currentValue != old(currentValue) && hasOnValueChanged
      ensures reported.Some? ==> reported.value == currentValue
    {
      reported := None;
      if !enabled {
        return;
      }
      if mouse.leftPressed && inside(mouse.position, HandleArea()) {
        isDragging := true;
      }
      if mouse.leftReleased {
        isDragging := false;
      }
      if isDragging {
        var normalizedPos := (mouse.position.x - bounds.x) / bounds.width;
        normalizedPos := Clamp(normalizedPos, 0.0, 1.0);
        var newValue := minValue + normalizedPos * (maxValue - minValue);
        assert newValue == DragValue(bounds, minValue, maxValue, mouse.position.x);
        if newValue != currentValue {
          currentValue := newValue;
          if hasOnValueChanged {
            reported := Some(currentValue);
          }
        }
      }
    }
  }
}
