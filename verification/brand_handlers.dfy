/** The brand handlers' decision rules
    (InstallApkDemo/InstallApkDemo/Brandhandler/): how Oppo and Xiaomi read
    the focused window into a blocking state, which states they handle, and
    which handler a device's brand gets. The taps, key presses, delays and
    console text of the handlers are ADB side effects and not modelled. */
module BrandHandlers {
  import opened Text
  import opened InstallModel

  // ---------- keyword classification ----------

  /** Some keyword of `keys` occurs in `focus`, ignoring ASCII case. */
  function MentionsAny(focus: string, keys: seq<string>): (b: bool)
    ensures b <==> exists i :: 0 <= i < |keys| && ContainsIgnoreCase(focus, keys[i])
  {
    if |keys| == 0 then false
    else if ContainsIgnoreCase(focus, keys[0]) then true
    else
      var b := MentionsAny(focus, keys[1..]);
      assert forall i :: 1 <= i < |keys| ==> keys[i] == keys[1..][i - 1];
      b
  }

  /** A string that lacks one of `k`'s characters cannot contain `k`. */
  lemma MissingCharNotContained(s: string, k: string, c: char)
    requires c in k && c !in s
    ensures !Contains(s, k)
  {
  }

  // ---------- Oppo / ColorOS ----------

  const OppoCordsClickKeywords: seq<string> :=
    ["OPlusPackageInstallerActivity", "OppoPackageInstallerActivity", "InstallGuideActivity"]

  const OppoAccountRequiredKeywords: seq<string> := ["safecenter", "securitycenter"]

  /** `OppoHandler.DetectState`: an installed target package wins, then the
      security-center keywords, then the installer-activity keywords. */
  function OppoDetectState(targetInstalled: bool, focus: string): (r: BlockingState)
    ensures targetInstalled ==> r == Success
    ensures !targetInstalled ==> (r == AccountRequired <==> MentionsAny(focus, OppoAccountRequiredKeywords))
    ensures !targetInstalled && !MentionsAny(focus, OppoAccountRequiredKeywords) ==>
              (r == CordsClick <==> MentionsAny(focus, OppoCordsClickKeywords))
    ensures r == None <==>
              !targetInstalled && !MentionsAny(focus, OppoAccountRequiredKeywords)
              && !MentionsAny(focus, OppoCordsClickKeywords)
    ensures r != UnknownBlock && r != OverTime
  {
    if targetInstalled then Success
    else if MentionsAny(focus, OppoAccountRequiredKeywords) then AccountRequired
    else if MentionsAny(focus, OppoCordsClickKeywords) then CordsClick
    else None
  }

  /** `OppoHandler.HandleBlockingStateAsync`: only the coordinate click is
      handled; the account prompt is backed out of and left to the fallback. */
  function OppoHandle(state: BlockingState): (handled: bool)
    ensures handled <==> state == CordsClick
  {
    if state == AccountRequired then false
    else if state == CordsClick then true
    else false
  }

  /** A keyword that occurs verbatim in the focus is found, whatever its case. */
  lemma OccursVerbatim(s: string, k: string, i: nat)
    requires i + |k| <= |s| && s[i..i + |k|] == k
    ensures ContainsIgnoreCase(s, k)
  {
    assert forall j :: 0 <= j < |k| ==> s[i + j] == k[j];
    assert Lower(s)[i..][..|k|] == Lower(k);
    assert OccursAt(Lower(s), Lower(k), i);
  }

  /** The security center takes precedence: a focus that names a security
      center is an account prompt, whatever installer activity it names as
      well, and so it is never handled but left to the fallback. */
  lemma OppoAccountBeatsClick(focus: string, j: nat, i: nat)
    requires j < |OppoAccountRequiredKeywords|
    requires i + |OppoAccountRequiredKeywords[j]| <= |focus|
    requires focus[i..i + |OppoAccountRequiredKeywords[j]|] == OppoAccountRequiredKeywords[j]
    ensures OppoDetectState(false, focus) == AccountRequired
    ensures !OppoHandle(OppoDetectState(false, focus))
  {
    OccursVerbatim(focus, OppoAccountRequiredKeywords[j], i);
    assert MentionsAny(focus, OppoAccountRequiredKeywords);
  }

  /** Lower-casing twice is lower-casing once. */
  lemma LowerIdempotent(s: string)
    ensures Lower(Lower(s)) == Lower(s)
  {
  }

  /** Detection ignores the case of the focused window's text. */
  lemma DetectIgnoresCase(h: UiHandler, s: Screen)
    ensures Detect(h, s.(focus := Lower(s.focus))) == Detect(h, s)
  {
    LowerIdempotent(s.focus);
    assert forall k :: ContainsIgnoreCase(Lower(s.focus), k) == ContainsIgnoreCase(s.focus, k);
  }

  // ---------- Xiaomi / MIUI ----------

  const XiaomiInstallerKeyword: string := "com.miui.packageinstaller"

  /** `XiaomiHandler.DetectState`: the MIUI installer in focus asks for a click. */
  function XiaomiDetectState(focus: string): (r: BlockingState)
    ensures r == CordsClick <==> ContainsIgnoreCase(focus, XiaomiInstallerKeyword)
    ensures r == None || r == CordsClick
  {
    if ContainsIgnoreCase(focus, XiaomiInstallerKeyword) then CordsClick else None
  }

  /** `XiaomiHandler.HandleBlockingStateAsync`: the click is handled after
      the countdown; nothing else is. */
  function XiaomiHandle(state: BlockingState): (handled: bool)
    ensures handled ==> state == CordsClick
    ensures handled <==> OppoHandle(state)
  {
    if state == CordsClick then true else false
  }

  // ---------- the handlers the installer drives ----------

  /** The handlers that implement detection and handling. */
  datatype UiHandler = Oppo | Xiaomi

  /** What a handler's detector reads from one screen. */
  function Detect(h: UiHandler, s: Screen): (r: BlockingState)
    ensures r != UnknownBlock && r != OverTime
    ensures h == Xiaomi ==> r != Success && r != AccountRequired
  {
    match h
    case Oppo => OppoDetectState(s.targetInstalled, s.focus)
    case Xiaomi => XiaomiDetectState(s.focus)
  }

  /** Whether a handler resolves a blocking state. */
  function Handle(h: UiHandler, state: BlockingState): (handled: bool)
    ensures handled <==> state == CordsClick
  {
    match h
    case Oppo => OppoHandle(state)
    case Xiaomi => XiaomiHandle(state)
  }

  /** Every state a detector reports that a handler cannot resolve sends the
      installer to its fallback: for both brands, a detected state is
      handled exactly when it is the click. */
  lemma DetectedThenHandled(h: UiHandler, s: Screen)
    ensures Handle(h, Detect(h, s)) <==> Detect(h, s) == CordsClick
    ensures h == Oppo && !s.targetInstalled && MentionsAny(s.focus, OppoAccountRequiredKeywords) ==>
              !Handle(h, Detect(h, s))
  {
  }

  // ---------- the factory ----------

  /** The handler classes the factory can construct. */
  datatype Handler = HuaweiHandler | XiaomiHandler | OppoHandler | DefaultBrandHandler

  /** The brand as the factory matches it: `Trim().ToLower()`. */
  function NormalizeBrand(output: string): string {
    Lower(Trim(output))
  }

  /** `BrandHandlerFactory.GetHandler`: Huawei and Honor get the Huawei
      handler, Xiaomi and Redmi the Xiaomi handler; Oppo, Vivo and every
      other brand fall through to the default handler. */
  function GetHandler(brandOutput: string): (h: Handler)
    ensures var b := NormalizeBrand(brandOutput);
            && (h == HuaweiHandler <==> b == "huawei" || b == "honor")
            && (h == XiaomiHandler <==> b == "xiaomi" || b == "redmi")
            && (h == DefaultBrandHandler <==> b != "huawei" && b != "honor" && b != "xiaomi" && b != "redmi")
    ensures h != OppoHandler
  {
    var b := NormalizeBrand(brandOutput);
    if b == "huawei" || b == "honor" then HuaweiHandler
    else if b == "xiaomi" || b == "redmi" then XiaomiHandler
    else DefaultBrandHandler
  }

  /** Normalising twice is normalising once, so the factory gives the same
      handler for a brand string and for its normalised form. */
  lemma {:induction false} NormalizeBrandIdempotent(output: string)
    ensures NormalizeBrand(NormalizeBrand(output)) == NormalizeBrand(output)
    ensures GetHandler(NormalizeBrand(output)) == GetHandler(output)
  {
    NormalizeBrandTwice(output);
    var b := NormalizeBrand(output);
    assert NormalizeBrand(b) == b;
  }

  lemma NormalizeBrandTwice(output: string)
    ensures NormalizeBrand(NormalizeBrand(output)) == NormalizeBrand(output)
  {
    var t := Trim(output);
    LowerOfTrimmedIsTrimmed(t);
    LowerIdempotent(t);
  }

  /** Lower-casing a trimmed string leaves nothing to trim. */
  lemma LowerOfTrimmedIsTrimmed(t: string)
    requires |t| > 0 ==> !IsWhiteSpace(t[0]) && !IsWhiteSpace(t[|t| - 1])
    ensures Trim(Lower(t)) == Lower(t)
  {
    var l := Lower(t);
    if |l| > 0 {
      assert l[0] == LowerChar(t[0]) && l[|l| - 1] == LowerChar(t[|t| - 1]);
    }
    TrimUnchanged(l);
  }

  /** Capitals do not matter: Honor is served by the Huawei handler. */
  lemma HonorIsHuawei()
    ensures GetHandler("HONOR") == HuaweiHandler
  {
    TrimUnchanged("HONOR");
    assert Lower("HONOR") == "honor";
  }

  /** An Oppo device does not get the Oppo handler. */
  lemma OppoGetsDefault()
    ensures GetHandler("OPPO") == DefaultBrandHandler
  {
    TrimUnchanged("OPPO");
    assert Lower("OPPO") == "oppo";
  }
}
