# Behavior lookup and binding validation (ZMK `behavior.c`)

A Dafny model of the keyboard firmware's behavior core: the resolver that maps
a behavior name to a registered behavior device, the validator that checks a
keymap binding's two parameters against the metadata the behavior declares,
and the start-up diagnostic that reports duplicate behavior names.

- `ctypes.dfy` (module `CTypes`): `u16`/`u32`, the errno codes returned
  (negated, as in the C code; values as in Zephyr's `errno.h`), C strings as
  `NullPtr | At(addr)` read through a `Memory` that maps an address to the text
  stored there, and `Option` for nullable pointers.
- `behaviors.dfy` (module `Behaviors`): the registry as a sequence of
  `Device(addr, name, ready)` in section order; `Resolve`, the declarative
  result of the two-pass lookup; `GetBinding`, the two scanning loops proved
  equal to it; `CheckBehaviorNames`, the nested `i < j` loop.
- `params.dfy` (module `Params`): the build configuration (`Config`), the
  standard domains and the checks `ValidateHidUsage` / `ValidateStandardParam`.
- `custom.dfy` (module `CustomParams`): custom metadata (sets of value
  descriptors), its declarative meaning (`AnySetSatisfied`: some set in which
  every position is matched by one of its descriptors, or has none and holds
  0), the flag-based scan (`Scan`), and `ValidateCustomParams`, the nested loop
  with its early exit, proved to decide exactly the declarative condition.
- `validation.dfy` (module `Validation`): `ValidateBinding`, the top-level
  dispatch on the behavior's metadata.

Identity of names: the resolver's first pass compares name pointers. Here a
name is an address and its text is `mem(addr)`; since `mem` is a function, two
equal addresses always have equal texts, which is what makes an identity hit
a correct answer (`ResolveSound`).

Where the code's error codes differ from an idealised error taxonomy, the
model follows the code: an unknown HID usage page gives plain `-EINVAL` (only a
log warning tells it apart); custom metadata with zero sets gives `-EINVAL`
because the set loop never runs; only a NULL custom pointer gives `-ENODEV`;
a behavior that cannot report metadata yields whatever negative code its
driver returns, propagated unchanged.

## Model

| member | source | states |
|---|---|---|
| `Behaviors.GetBinding` | app/src/behavior.c:24-42 | the two loops return exactly `Resolve`: nothing for NULL or an empty name, else the first ready entry holding the query pointer, else the first ready entry whose name text equals the query, else nothing |
| `Behaviors.ResolveEmptyName` | app/src/behavior.c:25-27 | a NULL or empty name resolves to nothing, and the result does not depend on the registry at all |
| `Behaviors.ResolveSound` | app/src/behavior.c:29-39 | any device found is a registry entry, is ready, and its name text equals the query text (in both passes) |
| `Behaviors.ResolveComplete` | app/src/behavior.c:35-39 | if some ready entry's name text equals a non-empty query, a device is found |
| `Behaviors.ResolveIdentityFirst` | app/src/behavior.c:29-33 | when a ready entry holds the query pointer, the first such entry is returned, before any string comparison |
| `Behaviors.ResolveFirstTextMatch` | app/src/behavior.c:35-41 | without an identity hit, the first ready entry in registry order with an equal name is returned |
| `Behaviors.ResolveUniqueName` | app/src/behavior.c:29-39 | a name held by exactly one ready entry resolves to that entry |
| `Behaviors.CheckBehaviorNames` | app/src/behavior.c:174-195 | reports exactly the pairs `i < j` with equal names, in scan order (strictly increasing lexicographically), and returns 0 |
| `Params.ConsumerMaxUsage` | app/src/behavior.c:54-55 | the consumer id cap is 0xFF with the reduced usage set and 0xFFF otherwise |
| `Params.ValidateHidUsage` | app/src/behavior.c:45-65 | on the key page accepts iff `1 <= id <= NKRO max`; on the consumer page iff `id <=` the cap; any other page gives `-EINVAL`; the result is 0 or `-EINVAL` |
| `Params.ValidateStandardParam` | app/src/behavior.c:67-88 | NULL accepts iff the value is 0; HID usage gives exactly the usage check on the unpacked page and id; layer index accepts iff value `<` keymap length; HSV and unlisted domains always accept |
| `Params.ConsumerBasicNarrows` | app/src/behavior.c:53-57 | the reduced consumer set only narrows acceptance, and the two builds disagree exactly on ids 0x100..0xFFF |
| `Params.KeyUsageZeroRejected` | app/src/behavior.c:48-51 | a key-page usage with id 0 is rejected as a HID usage parameter |
| `CustomParams.ScanMeaning` | app/src/behavior.c:102-126 | after a full scan of a set, each "had metadata" flag says a descriptor targets that position, and each "matched" flag says one of those descriptors accepts the parameter (position 0 is param1, any other position param2) |
| `CustomParams.ScanVerdict` | app/src/behavior.c:128-131 | the verdict drawn from a full scan's flags is exactly the declarative "every position matched, or untargeted and 0" |
| `CustomParams.EarlyExitVerdict` | app/src/behavior.c:102 | stopping once both parameters are matched gives the same verdict as scanning every descriptor |
| `CustomParams.ValidateCustomParams` | app/src/behavior.c:90-135 | NULL metadata gives `-ENODEV`; otherwise 0 iff some set is satisfied, else `-EINVAL` |
| `CustomParams.NoSetsRejects` | app/src/behavior.c:96-134 | custom metadata with zero sets gives `-EINVAL` |
| `CustomParams.SetOrderIrrelevant` | app/src/behavior.c:96-132 | reordering the sets does not change the result |
| `CustomParams.DescriptorOrderIrrelevant` | app/src/behavior.c:102-126 | reordering the descriptors of a set does not change whether it is satisfied: descriptors at one position are alternatives |
| `CustomParams.ExactOrRangeExample` | app/src/behavior.c:115-124 | with sets {param1 = 5} and {param1 in 10..20}: (5, 0) and (15, 0) pass, (7, 0) fails |
| `CustomParams.UndeclaredPositionExample` | app/src/behavior.c:128-129 | with the one set {param1 = 5}: (5, 0) passes and (5, 3) fails, since an untargeted position must be 0 |
| `Validation.ValidateBinding` | app/src/behavior.c:139-171 | metadata support off gives 0; an unresolvable behavior gives `-ENODEV`; a negative metadata-query result is propagated; standard metadata returns a failing param1 result without checking param2, else the param2 result (0 iff both pass); custom metadata returns the custom-matching result; any other kind gives `-ENOTSUP` |

## Left out

- The syscall wrapper `zmk_behavior_get_binding` (app/src/behavior.c:20-22) only forwards to the resolver; `ValidateBinding` calls `GetBinding` directly.
- Device framework plumbing (`STRUCT_SECTION_FOREACH/COUNT/GET`, `z_device_is_ready`): the registry is an immutable sequence and readiness a field of each device, read as one snapshot.
- `behavior_get_parameter_domains` dispatches into behavior drivers that are not part of this model; it is the input `domains`, giving a return code and the metadata filled in.
- Logging (`LOG_DBG`, `LOG_WRN`, `LOG_ERR`): the duplicate-name diagnostic returns the reported index pairs instead of printing; each pair stands for one error line naming the first entry's name.
- `SYS_INIT` registration and the `CONFIG_LOG` switch around the duplicate-name check: start-up ordering is not modelled.
- The header macros `ZMK_HID_USAGE_PAGE`/`ZMK_HID_USAGE_ID` and the constants `ZMK_KEYMAP_LEN`, `ZMK_HID_KEYBOARD_NKRO_MAX_USAGE`, `HID_USAGE_KEY`, `HID_USAGE_CONSUMER` are not part of this model: they are fields of `Config` (the macros as functions from a `u32` to a `u16`), as are the `CONFIG_ZMK_BEHAVIOR_METADATA` and `CONFIG_ZMK_HID_CONSUMER_REPORT_USAGES_BASIC` switches.
- Params.ValidateHidUsage: its consumer-page clause assumes the key and consumer page constants differ, as the two `case` labels of one `switch` must.
- The widths of `sets_len`, `values_len`, the loop counters and the descriptor `position` field: the declaring header is not part of this model, so they are unbounded naturals.
- Repeating a validation with the same inputs gives the same result by construction (all operations are functions of their inputs); no separate lemma states it.
