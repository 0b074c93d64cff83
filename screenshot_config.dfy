/**
 * `config/screenshot_config.py`: the settings of the screenshot and PDF
 * features, read from the process environment (a map from variable names
 * to values here), checked by `validate`, and switched off by
 * `load_config` when the check fails.
 */
module ScreenshotSettings {
  import opened Wrappers
  import opened JsonModel
  import opened Text

  // ---------------------------------------------------------------------
  // Environment
  // ---------------------------------------------------------------------

  type Env = map<string, string>

  /** `os.getenv(name)`. */
  function GetEnv(env: Env, name: string): Option<string> {
    if name in env then Some(env[name]) else None
  }

  /** `os.getenv(name, default)`. */
  function GetEnvOr(env: Env, name: string, default: string): string {
    GetEnv(env, name).GetOr(default)
  }

  /** `int(os.getenv(name, default))`; `None` where `int` raises. */
  function EnvInt(env: Env, name: string, default: string): Option<int> {
    ParseInt(GetEnvOr(env, name, default))
  }

  /** `os.getenv(name, 'true').lower() == 'true'`. */
  predicate EnvFlag(env: Env, name: string) {
    Lower(GetEnvOr(env, name, "true")) == "true"
  }

  // ---------------------------------------------------------------------
  // Sub-configurations
  // ---------------------------------------------------------------------

  datatype PlaywrightConfig = PlaywrightConfig(
    browserType: string, headless: bool, viewportWidth: int, viewportHeight: int,
    timeout: int, screenshotFormat: string, quality: int)

  const DefaultPlaywright := PlaywrightConfig("chromium", true, 1920, 1080, 30000, "png", 90)

  /** The browsers `validate` accepts. */
  predicate IsBrowserType(b: string) {
    b == "chromium" || b == "firefox" || b == "webkit"
  }

  datatype PdfConfig = PdfConfig(
    quality: int, format: string, marginTop: int, marginBottom: int, marginLeft: int, marginRight: int)

  const DefaultPdf := PdfConfig(95, "A4", 20, 20, 20, 20)

  /** ImageKit credentials; each is `None` when its variable is unset. */
  datatype ImageKitConfig = ImageKitConfig(
    publicKey: Option<string>, privateKey: Option<string>, urlEndpoint: Option<string>,
    folderStructure: string)

  const DefaultFolders := "/screenshots/{subject}/{year}/"

  const PublicKeyVar := "IMAGEKIT_PUBLIC_KEY"
  const PrivateKeyVar := "IMAGEKIT_PRIVATE_KEY"
  const UrlEndpointVar := "IMAGEKIT_URL_ENDPOINT"

  /**
   * `ImageKitConfig(...)`: `__post_init__` overwrites the three credentials
   * from the environment, whatever was passed in.
   */
  function ImageKitFromEnv(env: Env, folderStructure: string): (c: ImageKitConfig)
    ensures c.publicKey == GetEnv(env, PublicKeyVar)
    ensures c.privateKey == GetEnv(env, PrivateKeyVar)
    ensures c.urlEndpoint == GetEnv(env, UrlEndpointVar)
    ensures c.folderStructure == folderStructure
  {
    ImageKitConfig(GetEnv(env, PublicKeyVar), GetEnv(env, PrivateKeyVar), GetEnv(env, UrlEndpointVar), folderStructure)
  }

  /** Python's truth value of an optional string. */
  predicate Present(s: Option<string>) {
    s.Some? && s.value != ""
  }

  /** `is_configured`: `all([public_key, private_key, url_endpoint])`. */
  predicate IsConfigured(c: ImageKitConfig) {
    Present(c.publicKey) && Present(c.privateKey) && Present(c.urlEndpoint)
  }

  /** Credentials read from the environment are configured exactly when the three variables are set and non-empty. */
  lemma ConfiguredFromEnv(env: Env, folderStructure: string)
    ensures IsConfigured(ImageKitFromEnv(env, folderStructure)) <==>
      Present(GetEnv(env, PublicKeyVar)) && Present(GetEnv(env, PrivateKeyVar)) && Present(GetEnv(env, UrlEndpointVar))
  {
  }

  /** The variables named by the missing-credentials error, in `validate`'s order. */
  function MissingVars(c: ImageKitConfig): seq<string> {
    (if Present(c.publicKey) then [] else [PublicKeyVar])
      + (if Present(c.privateKey) then [] else [PrivateKeyVar])
      + (if Present(c.urlEndpoint) then [] else [UrlEndpointVar])
  }

  /**
   * The error names exactly the unset credentials, in public, private,
   * endpoint order, and there are none exactly when ImageKit is configured.
   */
  lemma MissingVarsExact(c: ImageKitConfig)
    ensures MissingVars(c) == [] <==> IsConfigured(c)
    ensures PublicKeyVar in MissingVars(c) <==> !Present(c.publicKey)
    ensures PrivateKeyVar in MissingVars(c) <==> !Present(c.privateKey)
    ensures UrlEndpointVar in MissingVars(c) <==> !Present(c.urlEndpoint)
    ensures forall i, j :: 0 <= i < j < |MissingVars(c)| ==> VarRank(MissingVars(c)[i]) < VarRank(MissingVars(c)[j])
  {
    var m := MissingVars(c);
    assert PublicKeyVar != PrivateKeyVar && PrivateKeyVar != UrlEndpointVar && PublicKeyVar != UrlEndpointVar by {
      assert PublicKeyVar[10] != PrivateKeyVar[10];
      assert PrivateKeyVar[9] != UrlEndpointVar[9];
      assert PublicKeyVar[9] != UrlEndpointVar[9];
    }
  }

  /** Position of a credential variable in `validate`'s checks. */
  function VarRank(v: string): nat {
    if v == PublicKeyVar then 0 else if v == PrivateKeyVar then 1 else 2
  }

  const MissingPrefix := "Missing required environment variables: "
  const ViewportError := "Viewport dimensions must be positive integers"
  const TimeoutError := "Timeout must be a positive integer"
  const PdfQualityError := "PDF quality must be between 1 and 100"

  /** The credentials error, when some credential is unset. */
  function CredentialErrors(ik: ImageKitConfig): (e: seq<string>)
    ensures |e| <= 1
    ensures e == [] <==> IsConfigured(ik)
  {
    if IsConfigured(ik) then [] else [MissingPrefix + Join(MissingVars(ik), ", ")]
  }

  function BrowserErrors(pw: PlaywrightConfig): seq<string> {
    if IsBrowserType(pw.browserType) then [] else ["Invalid browser type: " + pw.browserType]
  }

  function ViewportErrors(pw: PlaywrightConfig): seq<string> {
    if pw.viewportWidth <= 0 || pw.viewportHeight <= 0 then [ViewportError] else []
  }

  function TimeoutErrors(pw: PlaywrightConfig): seq<string> {
    if pw.timeout <= 0 then [TimeoutError] else []
  }

  function PdfErrors(pdf: PdfConfig): seq<string> {
    if pdf.quality < 1 || pdf.quality > 100 then [PdfQualityError] else []
  }

  /** The errors `validate` reports, in order. */
  function Errors(enabled: bool, pw: PlaywrightConfig, ik: ImageKitConfig, pdf: PdfConfig): seq<string> {
    if enabled then
      CredentialErrors(ik) + BrowserErrors(pw) + ViewportErrors(pw) + TimeoutErrors(pw) + PdfErrors(pdf)
    else []
  }

  /**
   * Each fixed message is reported exactly when its check fails on an enabled
   * configuration, the browser message exactly when the browser is unknown,
   * and there are at most five errors.
   */
  lemma ErrorMessages(enabled: bool, pw: PlaywrightConfig, ik: ImageKitConfig, pdf: PdfConfig)
    ensures |Errors(enabled, pw, ik, pdf)| <= 5
    ensures ViewportError in Errors(enabled, pw, ik, pdf) <==> enabled && (pw.viewportWidth <= 0 || pw.viewportHeight <= 0)
    ensures TimeoutError in Errors(enabled, pw, ik, pdf) <==> enabled && pw.timeout <= 0
    ensures PdfQualityError in Errors(enabled, pw, ik, pdf) <==> enabled && !(1 <= pdf.quality <= 100)
    ensures ("Invalid browser type: " + pw.browserType in Errors(enabled, pw, ik, pdf)) <==>
      enabled && !IsBrowserType(pw.browserType)
  {
    if enabled {
      var m := MissingPrefix + Join(MissingVars(ik), ", ");
      var browser := "Invalid browser type: " + pw.browserType;
      assert m[0] == 'M';
      assert browser[0] == 'I';
      assert m[10] == 'q' && browser[10] == 'o' && ViewportError[10] == 'i';
      assert TimeoutError[10] == 's' && PdfQualityError[10] == 'y';
      assert TimeoutError[0] == 'T';
      assert PdfQualityError[0] == 'P';
      assert Errors(enabled, pw, ik, pdf)
        == CredentialErrors(ik) + BrowserErrors(pw) + ViewportErrors(pw) + TimeoutErrors(pw) + PdfErrors(pdf);
    }
  }

  /** The `missing_vars` list of `validate`, built check by check. */
  method CollectMissingVars(ik: ImageKitConfig) returns (missingVars: seq<string>)
    ensures missingVars == MissingVars(ik)
  {
    missingVars := [];
    if !Present(ik.publicKey) {
      missingVars := missingVars + [PublicKeyVar];
    }
    if !Present(ik.privateKey) {
      missingVars := missingVars + [PrivateKeyVar];
    }
    if !Present(ik.urlEndpoint) {
      missingVars := missingVars + [UrlEndpointVar];
    }
  }

  /** What an enabled configuration must satisfy to pass `validate`. */
  predicate Acceptable(pw: PlaywrightConfig, ik: ImageKitConfig, pdf: PdfConfig) {
    && IsConfigured(ik)
    && IsBrowserType(pw.browserType)
    && pw.viewportWidth > 0 && pw.viewportHeight > 0
    && pw.timeout > 0
    && 1 <= pdf.quality <= 100
  }

  /** There is no error exactly when the settings are disabled or acceptable. */
  lemma ErrorsEmpty(enabled: bool, pw: PlaywrightConfig, ik: ImageKitConfig, pdf: PdfConfig)
    ensures Errors(enabled, pw, ik, pdf) == [] <==> !enabled || Acceptable(pw, ik, pdf)
  {
  }

  /** The defaults pass `validate` whenever the three credentials are set. */
  lemma DefaultsAcceptable(ik: ImageKitConfig)
    requires IsConfigured(ik)
    ensures Acceptable(DefaultPlaywright, ik, DefaultPdf)
  {
  }

  // ---------------------------------------------------------------------
  // ScreenshotConfig
  // ---------------------------------------------------------------------

  /** `'***' if private_key else None`, and the other optional texts as they are. */
  function OptionalText(s: Option<string>): (j: Json)
    ensures j == JNull || j.JStr?
  {
    if s.Some? then JStr(s.value) else JNull
  }

  class ScreenshotConfig {
    var enabled: bool
    const playwright: PlaywrightConfig
    const imagekit: ImageKitConfig
    const pdf: PdfConfig

    /** The dataclass constructor followed by `__post_init__`: each missing part takes its default. */
    constructor(enabled: bool, playwright: Option<PlaywrightConfig>, imagekit: Option<ImageKitConfig>,
                pdf: Option<PdfConfig>, env: Env)
      ensures this.enabled == enabled
      ensures this.playwright == playwright.GetOr(DefaultPlaywright)
      ensures this.imagekit == imagekit.GetOr(ImageKitFromEnv(env, DefaultFolders))
      ensures this.pdf == pdf.GetOr(DefaultPdf)
    {
      this.enabled := enabled;
      this.playwright := playwright.GetOr(DefaultPlaywright);
      this.imagekit := imagekit.GetOr(ImageKitFromEnv(env, DefaultFolders));
      this.pdf := pdf.GetOr(DefaultPdf);
    }

    /** `validate`: the errors in order, and whether there are none. */
    method Validate() returns (ok: bool, errors: seq<string>)
      ensures errors == Errors(enabled, playwright, imagekit, pdf)
      ensures ok <==> !enabled || Acceptable(playwright, imagekit, pdf)
      ensures !enabled ==> ok && errors == []
    {
      errors := [];
      if enabled {
        if !IsConfigured(imagekit) {
          var missingVars := CollectMissingVars(imagekit);
          errors := errors + [MissingPrefix + Join(missingVars, ", ")];
        }
        assert errors == CredentialErrors(imagekit);
        ghost var credential := errors;
        if !IsBrowserType(playwright.browserType) {
          errors := errors + ["Invalid browser type: " + playwright.browserType];
        }
        assert errors == credential + BrowserErrors(playwright);
        if playwright.viewportWidth <= 0 || playwright.viewportHeight <= 0 {
          errors := errors + [ViewportError];
        }
        assert errors == credential + BrowserErrors(playwright) + ViewportErrors(playwright);
        if playwright.timeout <= 0 {
          errors := errors + [TimeoutError];
        }
        assert errors == credential + BrowserErrors(playwright) + ViewportErrors(playwright) + TimeoutErrors(playwright);
        if pdf.quality < 1 || pdf.quality > 100 {
          errors := errors + [PdfQualityError];
        }
      }
      ErrorsEmpty(enabled, playwright, imagekit, pdf);
      ok := |errors| == 0;
    }

    /** `to_dict`: the four sections under their names, in order. */
    function ToDict(): (d: Json)
      reads this
      ensures d.JObj? && |d.fields| == 4
      ensures Get(d.fields, "enabled") == Some(JBool(enabled))
      ensures Get(d.fields, "imagekit") == Some(ImageKitDict(imagekit))
      ensures Get(d.fields, "playwright") == Some(PlaywrightDict(playwright))
      ensures Get(d.fields, "pdf") == Some(PdfDict(pdf))
    {
      var fields := [
        ("enabled", JBool(enabled)),
        ("playwright", PlaywrightDict(playwright)),
        ("imagekit", ImageKitDict(imagekit)),
        ("pdf", PdfDict(pdf))];
      assert "enabled"[0] != "playwright"[0] && "enabled"[0] != "imagekit"[0] && "enabled"[0] != "pdf"[0];
      assert "playwright"[1] != "imagekit"[1] && "playwright"[1] != "pdf"[1] && "imagekit"[0] != "pdf"[0];
      assert Get(fields[2..], "imagekit") == Some(ImageKitDict(imagekit));
      assert Get(fields[3..], "pdf") == Some(PdfDict(pdf));
      assert Get(fields[2..], "pdf") == Get(fields[3..], "pdf");
      JObj(fields)
    }
  }

  function PlaywrightDict(pw: PlaywrightConfig): Json {
    JObj([
      ("browser_type", JStr(pw.browserType)),
      ("headless", JBool(pw.headless)),
      ("viewport", JObj([("width", JInt(pw.viewportWidth)), ("height", JInt(pw.viewportHeight))])),
      ("timeout", JInt(pw.timeout)),
      ("screenshot_format", JStr(pw.screenshotFormat)),
      ("quality", JInt(pw.quality))])
  }

  /**
   * The `imagekit` section: every setting copied, except that the private
   * key is replaced by `'***'` when set and by `None` otherwise.
   */
  function ImageKitDict(ik: ImageKitConfig): (j: Json)
    ensures j.JObj?
    ensures Get(j.fields, "private_key") == Some(if Present(ik.privateKey) then JStr("***") else JNull)
    ensures Get(j.fields, "public_key") == Some(OptionalText(ik.publicKey))
    ensures Get(j.fields, "url_endpoint") == Some(OptionalText(ik.urlEndpoint))
    ensures Get(j.fields, "folder_structure") == Some(JStr(ik.folderStructure))
  {
    assert "public_key"[1] != "private_key"[1] && "public_key"[0] != "url_endpoint"[0] && "public_key"[0] != "folder_structure"[0];
    assert "private_key"[0] != "url_endpoint"[0] && "private_key"[0] != "folder_structure"[0];
    assert "url_endpoint"[0] != "folder_structure"[0];
    var fields := [
      ("public_key", OptionalText(ik.publicKey)),
      ("private_key", if Present(ik.privateKey) then JStr("***") else JNull),
      ("url_endpoint", OptionalText(ik.urlEndpoint)),
      ("folder_structure", JStr(ik.folderStructure))];
    assert Get(fields[2..], "url_endpoint") == Some(OptionalText(ik.urlEndpoint));
    assert Get(fields[3..], "folder_structure") == Some(JStr(ik.folderStructure));
    assert Get(fields[2..], "folder_structure") == Get(fields[3..], "folder_structure");
    JObj(fields)
  }

  function PdfDict(pdf: PdfConfig): Json {
    JObj([
      ("quality", JInt(pdf.quality)),
      ("format", JStr(pdf.format)),
      ("margin", JObj([
        ("top", JInt(pdf.marginTop)), ("bottom", JInt(pdf.marginBottom)),
        ("left", JInt(pdf.marginLeft)), ("right", JInt(pdf.marginRight))]))])
  }

  // ---------------------------------------------------------------------
  // from_env and load_config
  // ---------------------------------------------------------------------

  /** The Playwright part of `from_env`; `None` where an `int(...)` raises. */
  function PlaywrightFromEnv(env: Env): (r: Option<PlaywrightConfig>)
    ensures r.Some? ==> r.value.browserType == GetEnvOr(env, "PLAYWRIGHT_BROWSER", "chromium")
    ensures r.Some? ==> r.value.headless == EnvFlag(env, "PLAYWRIGHT_HEADLESS")
  {
    var width := EnvInt(env, "PLAYWRIGHT_VIEWPORT_WIDTH", "1920");
    var height := EnvInt(env, "PLAYWRIGHT_VIEWPORT_HEIGHT", "1080");
    var timeout := EnvInt(env, "PLAYWRIGHT_TIMEOUT", "30000");
    var quality := EnvInt(env, "PLAYWRIGHT_QUALITY", "90");
    if width.None? || height.None? || timeout.None? || quality.None? then None
    else
      Some(PlaywrightConfig(
        GetEnvOr(env, "PLAYWRIGHT_BROWSER", "chromium"), EnvFlag(env, "PLAYWRIGHT_HEADLESS"),
        width.value, height.value, timeout.value,
        GetEnvOr(env, "PLAYWRIGHT_SCREENSHOT_FORMAT", "png"), quality.value))
  }

  /** The Playwright settings are read exactly when its four integer variables parse. */
  lemma PlaywrightFromEnvParses(env: Env)
    ensures PlaywrightFromEnv(env).Some? <==> (
      && EnvInt(env, "PLAYWRIGHT_VIEWPORT_WIDTH", "1920").Some? && EnvInt(env, "PLAYWRIGHT_VIEWPORT_HEIGHT", "1080").Some?
      && EnvInt(env, "PLAYWRIGHT_TIMEOUT", "30000").Some? && EnvInt(env, "PLAYWRIGHT_QUALITY", "90").Some?)
    ensures PlaywrightFromEnv(env).Some? ==>
      var pw := PlaywrightFromEnv(env).value;
      && pw.viewportWidth == EnvInt(env, "PLAYWRIGHT_VIEWPORT_WIDTH", "1920").value
      && pw.viewportHeight == EnvInt(env, "PLAYWRIGHT_VIEWPORT_HEIGHT", "1080").value
      && pw.timeout == EnvInt(env, "PLAYWRIGHT_TIMEOUT", "30000").value
      && pw.screenshotFormat == GetEnvOr(env, "PLAYWRIGHT_SCREENSHOT_FORMAT", "png")
      && pw.quality == EnvInt(env, "PLAYWRIGHT_QUALITY", "90").value
  {
  }

  /** The PDF part of `from_env`; `None` where an `int(...)` raises. */
  function PdfFromEnv(env: Env): (r: Option<PdfConfig>)
    ensures r.Some? ==> r.value.format == GetEnvOr(env, "PDF_FORMAT", "A4")
    ensures r.Some? <==> (
      && EnvInt(env, "PDF_QUALITY", "95").Some? && EnvInt(env, "PDF_MARGIN_TOP", "20").Some?
      && EnvInt(env, "PDF_MARGIN_BOTTOM", "20").Some? && EnvInt(env, "PDF_MARGIN_LEFT", "20").Some?
      && EnvInt(env, "PDF_MARGIN_RIGHT", "20").Some?)
  {
    var quality := EnvInt(env, "PDF_QUALITY", "95");
    var top := EnvInt(env, "PDF_MARGIN_TOP", "20");
    var bottom := EnvInt(env, "PDF_MARGIN_BOTTOM", "20");
    var left := EnvInt(env, "PDF_MARGIN_LEFT", "20");
    var right := EnvInt(env, "PDF_MARGIN_RIGHT", "20");
    if quality.None? || top.None? || bottom.None? || left.None? || right.None? then None
    else Some(PdfConfig(quality.value, GetEnvOr(env, "PDF_FORMAT", "A4"), top.value, bottom.value, left.value, right.value))
  }

  /** The settings `from_env` reads from the environment, all parsed. */
  ghost predicate ReadFrom(playwright: PlaywrightConfig, imagekit: ImageKitConfig, pdf: PdfConfig, env: Env) {
    && PlaywrightFromEnv(env).Some? && playwright == PlaywrightFromEnv(env).value
    && PdfFromEnv(env).Some? && pdf == PdfFromEnv(env).value
    && imagekit == ImageKitFromEnv(env, DefaultFolders)
  }

  /**
   * `ScreenshotConfig.from_env`: `None` where an integer variable does not
   * parse (the `ValueError` escapes); otherwise a fresh configuration.
   */
  method FromEnv(env: Env) returns (config: Option<ScreenshotConfig>)
    ensures config.None? <==> PlaywrightFromEnv(env).None? || PdfFromEnv(env).None?
    ensures config.Some? ==> (
      && fresh(config.value)
      && config.value.enabled == EnvFlag(env, "SCREENSHOT_ENABLED")
      && ReadFrom(config.value.playwright, config.value.imagekit, config.value.pdf, env))
  {
    var enabled := EnvFlag(env, "SCREENSHOT_ENABLED");
    var playwright := PlaywrightFromEnv(env);
    var pdf := PdfFromEnv(env);
    if playwright.None? || pdf.None? {
      return None;
    }
    var c := new ScreenshotConfig(enabled, playwright, Some(ImageKitFromEnv(env, DefaultFolders)), pdf, env);
    return Some(c);
  }

  /**
   * `load_config`: the configuration from the environment, disabled when
   * it fails `validate`. Afterwards it is enabled exactly when the
   * environment enables it and it is acceptable, so it always validates.
   */
  method LoadConfig(env: Env) returns (config: Option<ScreenshotConfig>)
    ensures config.None? <==> PlaywrightFromEnv(env).None? || PdfFromEnv(env).None?
    ensures config.Some? ==> (
      && fresh(config.value)
      && ReadFrom(config.value.playwright, config.value.imagekit, config.value.pdf, env)
      && (config.value.enabled <==>
            EnvFlag(env, "SCREENSHOT_ENABLED") && Acceptable(config.value.playwright, config.value.imagekit, config.value.pdf))
      && Errors(config.value.enabled, config.value.playwright, config.value.imagekit, config.value.pdf) == [])
  {
    config := FromEnv(env);
    if config.None? {
      return;
    }
    var c := config.value;
    var isValid, errors := c.Validate();
    if !isValid && c.enabled {
      c.enabled := false;
    }
    ErrorsEmpty(c.enabled, c.playwright, c.imagekit, c.pdf);
  }
}
