/** Validation of a whole binding: resolve its behavior, ask the behavior for
    its parameter metadata, and check both parameters against it. */
module Validation {
  import opened CTypes
  import opened Params
  import opened CustomParams
  import opened Behaviors

  /** The parameter metadata a behavior declares. `UnlistedMetadata` stands
      for a type tag other than the two the validator's `switch` names. */
  datatype Metadata =
    | StandardMetadata(param1: StandardDomain, param2: StandardDomain)
    | CustomMetadata(custom: Option<seq<ParamSet>>)
    | UnlistedMetadata(code: int)

  /** A behavior driver's answer to the parameter-domains query: its return
      code, and the metadata it filled in (only read when the code is not negative). */
  datatype DomainsReply = DomainsReply(ret: int, metadata: Metadata)

  /** A keymap binding: the behavior's name and its two parameters. */
  datatype Binding = Binding(behaviorDev: CStr, param1: u32, param2: u32)

  /** Validates a binding. Returns 0 when the parameters are legal for the
      behavior, otherwise a negative errno; with metadata support switched
      off in the build, every binding is accepted. */
  method ValidateBinding(cfg: Config, reg: Registry, mem: Memory, domains: Device -> DomainsReply, binding: Binding)
    returns (r: int)
    ensures !cfg.metadataEnabled ==> r == 0
    ensures cfg.metadataEnabled && Resolve(reg, mem, binding.behaviorDev).None? ==> r == -ENODEV
    ensures cfg.metadataEnabled && Resolve(reg, mem, binding.behaviorDev).Some? ==>
      var reply := domains(Resolve(reg, mem, binding.behaviorDev).value);
      && (reply.ret < 0 ==> r == reply.ret)
      && (reply.ret >= 0 && reply.metadata.StandardMetadata? ==>
            var r1 := ValidateStandardParam(cfg, reply.metadata.param1, binding.param1);
            var r2 := ValidateStandardParam(cfg, reply.metadata.param2, binding.param2);
            (r1 != 0 ==> r == r1) && (r1 == 0 ==> r == r2) && (r == 0 <==> r1 == 0 && r2 == 0))
      && (reply.ret >= 0 && reply.metadata.CustomMetadata? ==>
            r == CustomResult(cfg, reply.metadata.custom, binding.param1, binding.param2))
      && (reply.ret >= 0 && reply.metadata.UnlistedMetadata? ==> r == -ENOTSUP)
  {
    if !cfg.metadataEnabled {
      return 0;
    }
    var behavior := GetBinding(reg, mem, binding.behaviorDev);
    if behavior.None? {
      return -ENODEV;
    }
    var reply := domains(behavior.value);
    if reply.ret < 0 {
      return reply.ret;
    }
    match reply.metadata {
      case StandardMetadata(domain1, domain2) =>
        var ret := ValidateStandardParam(cfg, domain1, binding.param1);
        if ret < 0 {
          return ret;
        }
        return ValidateStandardParam(cfg, domain2, binding.param2);
      case CustomMetadata(custom) =>
        r := ValidateCustomParams(cfg, custom, binding.param1, binding.param2);
      case UnlistedMetadata(_) =>
        return -ENOTSUP;
    }
  }
}
