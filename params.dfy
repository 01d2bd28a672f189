/** The build configuration the validator reads, the closed set of standard
    parameter domains, and the checks of one parameter against a domain. */
module Params {
  import opened CTypes

  /** Constants, header macros and build switches the validator depends on. */
  datatype Config = Config(
    metadataEnabled: bool,       // CONFIG_ZMK_BEHAVIOR_METADATA
    consumerUsagesBasic: bool,   // CONFIG_ZMK_HID_CONSUMER_REPORT_USAGES_BASIC
    keymapLen: nat,              // ZMK_KEYMAP_LEN, the number of layers
    nkroMaxUsage: nat,           // ZMK_HID_KEYBOARD_NKRO_MAX_USAGE
    keyPage: u16,                // HID_USAGE_KEY
    consumerPage: u16,           // HID_USAGE_CONSUMER
    usagePage: u32 -> u16,       // ZMK_HID_USAGE_PAGE, unpacks the page of a usage value
    usageId: u32 -> u16)         // ZMK_HID_USAGE_ID, unpacks the id of a usage value

  /** The standard parameter domains. `Unlisted` stands for an enum value
      outside the four the validator's `switch` names. */
  datatype StandardDomain = Null | HidUsage | LayerIndex | Hsv | Unlisted(code: int)

  /** Largest consumer usage id accepted: 0xFF with the reduced usage set, 0xFFF otherwise. */
  function ConsumerMaxUsage(cfg: Config): (m: nat)
    ensures m == 0xFF || m == 0xFFF
    ensures cfg.consumerUsagesBasic <==> m < 0xFFF
  {
    if cfg.consumerUsagesBasic then 0xFF else 0xFFF
  }

  /** Checks a HID usage: on the keyboard page ids 1 up to the NKRO maximum,
      on the consumer page ids up to the consumer maximum; any other page is
      rejected. Returns 0 or -EINVAL. */
  function ValidateHidUsage(cfg: Config, page: u16, id: u16): (r: int)
    ensures r == 0 || r == -EINVAL
    ensures page == cfg.keyPage ==> (r == 0 <==> 1 <= id as nat <= cfg.nkroMaxUsage)
    ensures page != cfg.keyPage && page == cfg.consumerPage ==> (r == 0 <==> id as nat <= ConsumerMaxUsage(cfg))
    ensures page != cfg.keyPage && page != cfg.consumerPage ==> r == -EINVAL
  {
    if page == cfg.keyPage then
      if id == 0 || id as nat > cfg.nkroMaxUsage then -EINVAL else 0
    else if page == cfg.consumerPage then
      if id as nat > ConsumerMaxUsage(cfg) then -EINVAL else 0
    else
      -EINVAL
  }

  /** Checks one parameter value against a standard domain. Returns 0 or -EINVAL. */
  function ValidateStandardParam(cfg: Config, domain: StandardDomain, val: u32): (r: int)
    ensures r == 0 || r == -EINVAL
    ensures domain == Null ==> (r == 0 <==> val == 0)
    ensures domain == HidUsage ==> r == ValidateHidUsage(cfg, cfg.usagePage(val), cfg.usageId(val))
    ensures domain == LayerIndex ==> (r == 0 <==> (val as nat) < cfg.keymapLen)
    ensures domain == Hsv ==> r == 0
    ensures domain.Unlisted? ==> r == 0
  {
    match domain
    case Null => if val != 0 then -EINVAL else 0
    case HidUsage => ValidateHidUsage(cfg, cfg.usagePage(val), cfg.usageId(val))
    case LayerIndex => if val as nat >= cfg.keymapLen then -EINVAL else 0
    case Hsv => 0
    case Unlisted(_) => 0
  }

  /** The reduced consumer usage set only narrows what is accepted: a usage
      accepted with it is accepted without it, and the two builds differ
      exactly on the consumer ids 0x100..0xFFF. */
  lemma ConsumerBasicNarrows(cfg: Config, page: u16, id: u16)
    requires page != cfg.keyPage && page == cfg.consumerPage
    ensures ValidateHidUsage(cfg.(consumerUsagesBasic := true), page, id) == 0
            ==> ValidateHidUsage(cfg.(consumerUsagesBasic := false), page, id) == 0
    ensures ValidateHidUsage(cfg.(consumerUsagesBasic := true), page, id)
            != ValidateHidUsage(cfg.(consumerUsagesBasic := false), page, id)
            <==> 0xFF < id <= 0xFFF
  {
  }

  /** Usage id 0 is never a key. */
  lemma KeyUsageZeroRejected(cfg: Config, val: u32)
    requires cfg.usagePage(val) == cfg.keyPage && cfg.usageId(val) == 0
    ensures ValidateStandardParam(cfg, HidUsage, val) == -EINVAL
  {
  }
}
