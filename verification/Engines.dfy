/**
 The registry of OCR engines, detectors, pipeline stages and precision modes.
 */
module Engines {
  import opened Text

  /** What the configuration depends on in an engine. Some engines come with a detector built in;
      `detector` names it. */
  datatype Engine = Engine(id: string, detector: Option<string>, patchBudget: bool, cpuOnly: bool, precision: bool) {
    /** The stages of a job. With a built-in detector there is no stage apart for reading. */
    function StageKeys(): seq<string> {
      if detector.Some? then ["detect", "layout"] else ["detect", "engine", "post"]
    }

    /** The stages a device can be chosen for. */
    function DeviceStageKeys(): seq<string> {
      if detector.Some? then ["detect"] else ["detect", "engine"]
    }
  }

  const HAYAI_NOVA := Engine("hayai-nova", None, true, false, true)
  const PADDLE_MANGA := Engine("paddle-manga", None, false, false, true)
  const PPOCR_MANGA := Engine("ppocr-manga", Some("ppocr-manga"), false, true, false)

  const DEFAULT_ENGINE := "hayai-nova"
  const DEFAULT_DETECTOR := "ppocr-manga"
  const REMOVED_ENGINES := ["mokuro", "mokuro-fp16"]
  const REMOVED_DETECTORS := ["ctd", "animetext", "rtdetr"]
  const PATCH_BUDGETS := [256, 384, 512]
  const DEFAULT_PATCH_BUDGET := 512

  const PRECISIONS := ["bf16", "fp16", "fp32"]
  const DEFAULT_PRECISION_MODE := "auto-accuracy"
  const PRECISION_MODES := ["auto-accuracy", "auto-balanced", "auto-speed", "fp32", "bf16", "fp16"]

  function FindEngine(id: string): (e: Option<Engine>)
    ensures e.Some? ==> e.value.id == id && e.value in [HAYAI_NOVA, PADDLE_MANGA, PPOCR_MANGA]
  {
    if id == HAYAI_NOVA.id then Some(HAYAI_NOVA)
    else if id == PADDLE_MANGA.id then Some(PADDLE_MANGA)
    else if id == PPOCR_MANGA.id then Some(PPOCR_MANGA)
    else None
  }

  /** The mode a precision setting names; `auto` is the old spelling of the default. */
  function PrecisionMode(value: string): (mode: Option<string>)
    ensures mode.Some? ==> mode.value in PRECISION_MODES
  {
    var v := Trim(value);
    if v == "" || v == "auto" then Some(DEFAULT_PRECISION_MODE)
    else if v in PRECISION_MODES then Some(v)
    else None
  }
}
