/** The settings document, how it is laid over the defaults on load, and what a save writes back. */
module Settings {
  import opened Prelude
  import opened Utf8
  import opened DeviceName

  datatype Decorations = Csd | ServerThemed | Server

  datatype Geometry = Geometry(
    x: int, y: int, width: int, height: int, logicalWidth: int, logicalHeight: int,
    scale: real, maximized: bool)

  datatype SettingsData = SettingsData(
    serverUrl: string, hwdec: string, videoMode: string, videoModeMigrated: bool,
    videoModeLibraries: map<string, string>, transcodeNotice: string, audioPassthrough: string,
    audioChannels: string, logLevel: string, deviceName: string, window: Geometry,
    audioExclusive: bool, disableGpuCompositing: bool, transparentTitlebar: bool,
    forceTranscoding: bool, windowDecorations: Option<Decorations>, hideScrollbar: bool,
    interfaceScale: string)

  datatype SettingsFile = SettingsFile(
    serverUrl: Option<string>, windowWidth: Option<int>, windowHeight: Option<int>,
    windowLogicalWidth: Option<int>, windowLogicalHeight: Option<int>, windowScale: Option<real>,
    windowX: Option<int>, windowY: Option<int>, windowMaximized: Option<bool>,
    hwdec: Option<string>, videoMode: Option<string>, videoModeMigrated: Option<bool>,
    videoModeLibraries: Option<map<string, string>>, transcodeNotice: Option<string>,
    audioPassthrough: Option<string>, audioExclusive: Option<bool>, audioChannels: Option<string>,
    disableGpuCompositing: Option<bool>, transparentTitlebar: Option<bool>, logLevel: Option<string>,
    forceTranscoding: Option<bool>, windowDecorations: Option<Decorations>,
    hideScrollbar: Option<bool>, interfaceScale: Option<string>, deviceName: Option<string>)

  const DEFAULT := SettingsData(
    "", "", "", false, map[], "", "", "", "", "",
    Geometry(-1, -1, 0, 0, 0, 0, 0.0, false),
    false, false, true, false, None, true, "")

  const WINDOW_SCALE_MIN: real := 0.5
  const WINDOW_SCALE_MAX: real := 4.0

  /** What the build knows: the hardware-decoding default and the rounding of a double to a single. */
  datatype Build = Build(hwdecDefault: string, narrow: real -> real)

  /** Rounding is monotone, settles at once, and is exact at zero and at both bounds. */
  ghost predicate Rounds(b: Build) {
    && (forall x :: b.narrow(b.narrow(x)) == b.narrow(x))
    && (forall x, y | x <= y :: b.narrow(x) <= b.narrow(y))
    && b.narrow(0.0) == 0.0
    && b.narrow(WINDOW_SCALE_MIN) == WINDOW_SCALE_MIN
    && b.narrow(WINDOW_SCALE_MAX) == WINDOW_SCALE_MAX
  }

  function Or<T>(o: Option<T>, otherwise: T): T {
    if o.Some? then o.value else otherwise
  }

  datatype ScaleCheck = Ok(scale: real) | Clamped(scale: real) | Unusable

  /** The scale a hand-edited file offers: kept, pulled to the nearer bound, or ignored. */
  function CheckWindowScale(b: Build, raw: real): ScaleCheck {
    if raw <= 0.0 then Unusable
    else if raw < WINDOW_SCALE_MIN then Clamped(WINDOW_SCALE_MIN)
    else if raw > WINDOW_SCALE_MAX then Clamped(WINDOW_SCALE_MAX)
    else Ok(b.narrow(raw))
  }

  /** The scale in force once the offered one was checked. */
  function ScaleFrom(b: Build, raw: Option<real>, current: real): real {
    if raw == None || CheckWindowScale(b, raw.value).Unusable? then current else CheckWindowScale(b, raw.value).scale
  }

  /** The part of the overlay that touches the window geometry. */
  function OverlaidWindow(b: Build, w: Geometry, f: SettingsFile): Geometry {
    Geometry(
      Or(f.windowX, w.x), Or(f.windowY, w.y), Or(f.windowWidth, w.width), Or(f.windowHeight, w.height),
      Or(f.windowLogicalWidth, w.logicalWidth), Or(f.windowLogicalHeight, w.logicalHeight),
      ScaleFrom(b, f.windowScale, w.scale),
      Or(f.windowMaximized, w.maximized))
  }

  /** The settings `d` after a document was laid over them: what the document leaves out stays. */
  function Overlaid(b: Build, d: SettingsData, f: SettingsFile): SettingsData {
    SettingsData(
      Or(f.serverUrl, d.serverUrl), Or(f.hwdec, d.hwdec), Or(f.videoMode, d.videoMode),
      Or(f.videoModeMigrated, d.videoModeMigrated), Or(f.videoModeLibraries, d.videoModeLibraries),
      Or(f.transcodeNotice, d.transcodeNotice), Or(f.audioPassthrough, d.audioPassthrough),
      Or(f.audioChannels, d.audioChannels), Or(f.logLevel, d.logLevel),
      if f.deviceName.Some? then TakeFit(f.deviceName.value, DEVICE_NAME_MAX) else d.deviceName,
      OverlaidWindow(b, d.window, f),
      Or(f.audioExclusive, d.audioExclusive), Or(f.disableGpuCompositing, d.disableGpuCompositing),
      Or(f.transparentTitlebar, d.transparentTitlebar), Or(f.forceTranscoding, d.forceTranscoding),
      if f.windowDecorations.Some? then f.windowDecorations else d.windowDecorations,
      Or(f.hideScrollbar, d.hideScrollbar), Or(f.interfaceScale, d.interfaceScale))
  }

  function When<T>(keep: bool, value: T): Option<T> {
    if keep then Some(value) else None
  }

  /** What a save writes: a value at its default is left out, and a pair is written only whole. */
  function ToFile(b: Build, d: SettingsData): SettingsFile {
    var w := d.window;
    var size := w.width > 0 && w.height > 0;
    var logical := w.logicalWidth > 0 && w.logicalHeight > 0;
    var position := w.x >= 0 && w.y >= 0;
    SettingsFile(
      Some(d.serverUrl), When(size, w.width), When(size, w.height),
      When(logical, w.logicalWidth), When(logical, w.logicalHeight), When(w.scale > 0.0, w.scale),
      When(position, w.x), When(position, w.y), Some(w.maximized),
      When(d.hwdec != "" && d.hwdec != b.hwdecDefault, d.hwdec), When(d.videoMode != "", d.videoMode),
      Some(true), When(d.videoModeLibraries != map[], d.videoModeLibraries),
      When(d.transcodeNotice != "", d.transcodeNotice), When(d.audioPassthrough != "", d.audioPassthrough),
      When(d.audioExclusive, true), When(d.audioChannels != "", d.audioChannels),
      When(d.disableGpuCompositing, true), When(!d.transparentTitlebar, false),
      When(d.logLevel != "", d.logLevel), When(d.forceTranscoding, true), d.windowDecorations,
      When(!d.hideScrollbar, false), When(d.interfaceScale != "", d.interfaceScale),
      When(d.deviceName != "", d.deviceName))
  }

  function Load(b: Build, f: SettingsFile): SettingsData {
    Overlaid(b, DEFAULT, f)
  }

  /** What a save and a load into fresh defaults make of a window. */
  function ReloadedWindow(w: Geometry): Geometry {
    var size := w.width > 0 && w.height > 0;
    var logical := w.logicalWidth > 0 && w.logicalHeight > 0;
    var position := w.x >= 0 && w.y >= 0;
    Geometry(
      if position then w.x else -1, if position then w.y else -1,
      if size then w.width else 0, if size then w.height else 0,
      if logical then w.logicalWidth else 0, if logical then w.logicalHeight else 0,
      if w.scale <= 0.0 then 0.0
      else if w.scale < WINDOW_SCALE_MIN then WINDOW_SCALE_MIN
      else if w.scale > WINDOW_SCALE_MAX then WINDOW_SCALE_MAX
      else w.scale,
      w.maximized)
  }

  lemma WindowReloads(b: Build, d: SettingsData)
    requires b.narrow(d.window.scale) == d.window.scale
    ensures Load(b, ToFile(b, d)).window == ReloadedWindow(d.window)
  {
  }

  lemma NameReloads(b: Build, d: SettingsData)
    ensures Load(b, ToFile(b, d)).deviceName == TakeFit(d.deviceName, DEVICE_NAME_MAX)
    ensures TakeFit(d.deviceName, DEVICE_NAME_MAX) == d.deviceName <==> |Encode(d.deviceName)| <= DEVICE_NAME_MAX
    ensures TakeFit(d.deviceName, DEVICE_NAME_MAX) == "" ==> |d.deviceName| == 0
  {
    FitLeavesLessThanAChar(d.deviceName, DEVICE_NAME_MAX);
  }

  /** Two settings that differ at most in window and device name, or in what a save does not tell apart. */
  lemma RestReloads(b: Build, d: SettingsData)
    ensures var l := Load(b, ToFile(b, d));
            l == d.(window := l.window, deviceName := l.deviceName, videoModeMigrated := true,
                    hwdec := if d.hwdec == b.hwdecDefault then "" else d.hwdec)
  {
  }

  /** The two values a load may change: a scale out of range and a name too long for its column. */
  predicate Storable(d: SettingsData) {
    (d.window.scale <= 0.0 || WINDOW_SCALE_MIN <= d.window.scale <= WINDOW_SCALE_MAX)
    && |Encode(d.deviceName)| <= DEVICE_NAME_MAX
  }

  /** Saving, loading and saving again writes the same document exactly when both values are storable. */
  lemma SaveLoadSaveIff(b: Build, d: SettingsData)
    requires Rounds(b) && b.narrow(d.window.scale) == d.window.scale
    ensures ToFile(b, Load(b, ToFile(b, d))) == ToFile(b, d) <==> Storable(d)
  {
    WindowReloads(b, d);
    NameReloads(b, d);
    RestReloads(b, d);
  }

  lemma LoadedIsStorable(b: Build, f: SettingsFile)
    requires Rounds(b)
    ensures Storable(Load(b, f)) && b.narrow(Load(b, f).window.scale) == Load(b, f).window.scale
    ensures Load(b, f).window.scale == 0.0 || WINDOW_SCALE_MIN <= Load(b, f).window.scale
  {
    if f.deviceName.Some? {
      FitLeavesLessThanAChar(f.deviceName.value, DEVICE_NAME_MAX);
    }
  }

  /** A document that was written from a load is a fixed point of load and save. */
  lemma SaveIsAFixedPoint(b: Build, f: SettingsFile)
    requires Rounds(b)
    ensures ToFile(b, Load(b, ToFile(b, Load(b, f)))) == ToFile(b, Load(b, f))
  {
    LoadedIsStorable(b, f);
    SaveLoadSaveIff(b, Load(b, f));
  }

  predicate WholeWindow(w: Geometry) {
    && ((w.x >= 0 && w.y >= 0) || (w.x == -1 && w.y == -1))
    && ((w.width > 0 && w.height > 0) || (w.width == 0 && w.height == 0))
    && ((w.logicalWidth > 0 && w.logicalHeight > 0) || (w.logicalWidth == 0 && w.logicalHeight == 0))
    && (w.scale == 0.0 || WINDOW_SCALE_MIN <= w.scale <= WINDOW_SCALE_MAX)
  }

  /**
   * Settings survive a save and a load into fresh defaults exactly when they
   * carry the migration marker, do not spell out the decoding default, fit the
   * name column, and describe every window pair whole or not at all.
   */
  lemma ReloadRestoresIff(b: Build, d: SettingsData)
    requires Rounds(b) && b.narrow(d.window.scale) == d.window.scale
    ensures Load(b, ToFile(b, d)) == d
            <==> d.videoModeMigrated && (d.hwdec == "" || d.hwdec != b.hwdecDefault)
                 && |Encode(d.deviceName)| <= DEVICE_NAME_MAX && WholeWindow(d.window)
  {
    WindowReloads(b, d);
    NameReloads(b, d);
    RestReloads(b, d);
  }

  /** The document that says nothing. */
  const NOTHING := SettingsFile(
    None, None, None, None, None, None, None, None, None, None, None, None, None, None, None,
    None, None, None, None, None, None, None, None, None, None)

  /** Laid over any settings it changes none of them. */
  lemma EmptyDocumentKeeps(b: Build, d: SettingsData)
    ensures Overlaid(b, d, NOTHING) == d
  {
  }

  /** A first start: with nothing in the document, these are the settings. */
  lemma EmptyDocumentGives(b: Build)
    ensures Load(b, NOTHING) == SettingsData(
      "", "", "", false, map[], "", "", "", "", "", Geometry(-1, -1, 0, 0, 0, 0, 0.0, false),
      false, false, true, false, None, true, "")
  {
  }

  /** Saved untouched, they write the server, the window state and the migration marker, and nothing else. */
  lemma DefaultsWrite(b: Build)
    ensures ToFile(b, Load(b, NOTHING)) == NOTHING.(
      serverUrl := Some(""), windowMaximized := Some(false), videoModeMigrated := Some(true))
  {
  }

  /** Only a document with the marker counts as migrated, and every document a save wrote has it. */
  lemma MarkerTellsSavedDocuments(b: Build, d: SettingsData, f: SettingsFile)
    ensures Load(b, f).videoModeMigrated <==> f.videoModeMigrated == Some(true)
    ensures Load(b, ToFile(b, d)).videoModeMigrated
  {
  }

  /** A text or a switch is left out exactly when fresh defaults have it, or it spells out the decoding default. */
  lemma LeftOutIff(b: Build, d: SettingsData)
    ensures var f, defaults := ToFile(b, d), Load(b, NOTHING);
            && (f.hwdec == None <==> d.hwdec == defaults.hwdec || d.hwdec == b.hwdecDefault)
            && (f.videoMode == None <==> d.videoMode == defaults.videoMode)
            && (f.videoModeLibraries == None <==> d.videoModeLibraries == defaults.videoModeLibraries)
            && (f.transcodeNotice == None <==> d.transcodeNotice == defaults.transcodeNotice)
            && (f.audioPassthrough == None <==> d.audioPassthrough == defaults.audioPassthrough)
            && (f.audioChannels == None <==> d.audioChannels == defaults.audioChannels)
            && (f.logLevel == None <==> d.logLevel == defaults.logLevel)
            && (f.deviceName == None <==> d.deviceName == defaults.deviceName)
            && (f.interfaceScale == None <==> d.interfaceScale == defaults.interfaceScale)
            && (f.windowDecorations == None <==> d.windowDecorations == defaults.windowDecorations)
            && (f.audioExclusive == None <==> d.audioExclusive == defaults.audioExclusive)
            && (f.disableGpuCompositing == None <==> d.disableGpuCompositing == defaults.disableGpuCompositing)
            && (f.transparentTitlebar == None <==> d.transparentTitlebar == defaults.transparentTitlebar)
            && (f.forceTranscoding == None <==> d.forceTranscoding == defaults.forceTranscoding)
            && (f.hideScrollbar == None <==> d.hideScrollbar == defaults.hideScrollbar)
  {
  }

  /** A positive scale ends at the place between 0.5 and 4 nearest to it, once rounded; any other is ignored. */
  lemma ScaleIsNearest(b: Build, raw: real, current: real, other: real)
    requires Rounds(b) && 0.5 <= other <= 4.0
    ensures var s := ScaleFrom(b, Some(raw), current);
            if raw <= 0.0 then s == current
            else 0.5 <= s <= 4.0 && (b.narrow(raw) <= s <= other || other <= s <= b.narrow(raw))
  {
    if 0.0 < raw < 0.5 {
      assert b.narrow(raw) <= b.narrow(WINDOW_SCALE_MIN);
    } else if raw > 4.0 {
      assert b.narrow(raw) >= b.narrow(WINDOW_SCALE_MAX);
    }
  }

  // ----- laying a document over the settings -----

  /** The settings held by the program; the overlay works on their fields one by one and stores them back together. */
  class Store {
    const build: Build
    var data: SettingsData

    constructor (build: Build)
      ensures data == DEFAULT && this.build == build
    {
      this.build, data := build, DEFAULT;
    }

    /** One field: the document's value if it has one. */
    method Replace<T>(held: T, offered: Option<T>) returns (r: T)
      ensures r == Or(offered, held)
    {
      r := held;
      if offered.Some? {
        r := offered.value;
      }
    }

    method OverlayWindow(w: Geometry, f: SettingsFile) returns (r: Geometry)
      ensures r == OverlaidWindow(build, w, f)
    {
      var Geometry(x, y, width, height, logicalWidth, logicalHeight, scale, maximized) := w;
      width := Replace(width, f.windowWidth);
      height := Replace(height, f.windowHeight);
      logicalWidth := Replace(logicalWidth, f.windowLogicalWidth);
      logicalHeight := Replace(logicalHeight, f.windowLogicalHeight);
      if f.windowScale.Some? {
        match CheckWindowScale(build, f.windowScale.value) {
          case Ok(s) =>
            scale := s;
          case Clamped(s) =>
            scale := s;
          case Unusable =>
        }
      }
      x := Replace(x, f.windowX);
      y := Replace(y, f.windowY);
      maximized := Replace(maximized, f.windowMaximized);
      r := Geometry(x, y, width, height, logicalWidth, logicalHeight, scale, maximized);
    }

    /** Every value the document has replaces the one held, and nothing else changes. */
    method Overlay(f: SettingsFile)
      modifies this
      ensures data == Overlaid(build, old(data), f)
    {
      var SettingsData(
        serverUrl, hwdec, videoMode, videoModeMigrated, videoModeLibraries, transcodeNotice, audioPassthrough,
        audioChannels, logLevel, deviceName, window, audioExclusive, disableGpuCompositing, transparentTitlebar,
        forceTranscoding, windowDecorations, hideScrollbar, interfaceScale) := data;
      serverUrl := Replace(serverUrl, f.serverUrl);
      hwdec := Replace(hwdec, f.hwdec);
      videoMode := Replace(videoMode, f.videoMode);
      videoModeMigrated := Replace(videoModeMigrated, f.videoModeMigrated);
      videoModeLibraries := Replace(videoModeLibraries, f.videoModeLibraries);
      transcodeNotice := Replace(transcodeNotice, f.transcodeNotice);
      audioPassthrough := Replace(audioPassthrough, f.audioPassthrough);
      audioChannels := Replace(audioChannels, f.audioChannels);
      logLevel := Replace(logLevel, f.logLevel);
      if f.deviceName.Some? {
        deviceName := TruncateDeviceName(f.deviceName.value);
      }
      window := OverlayWindow(window, f);
      audioExclusive := Replace(audioExclusive, f.audioExclusive);
      disableGpuCompositing := Replace(disableGpuCompositing, f.disableGpuCompositing);
      transparentTitlebar := Replace(transparentTitlebar, f.transparentTitlebar);
      forceTranscoding := Replace(forceTranscoding, f.forceTranscoding);
      if f.windowDecorations.Some? {
        windowDecorations := f.windowDecorations;
      }
      hideScrollbar := Replace(hideScrollbar, f.hideScrollbar);
      interfaceScale := Replace(interfaceScale, f.interfaceScale);
      data := SettingsData(
        serverUrl, hwdec, videoMode, videoModeMigrated, videoModeLibraries, transcodeNotice, audioPassthrough,
        audioChannels, logLevel, deviceName, window, audioExclusive, disableGpuCompositing, transparentTitlebar,
        forceTranscoding, windowDecorations, hideScrollbar, interfaceScale);
    }
  }

  /** Starting up: fresh defaults with the document laid over them. */
  method LoadSettings(build: Build, f: SettingsFile) returns (s: Store)
    requires Rounds(build)
    ensures fresh(s) && s.build == build && s.data == Load(build, f) && Storable(s.data)
  {
    s := new Store(build);
    s.Overlay(f);
    LoadedIsStorable(build, f);
  }
}
