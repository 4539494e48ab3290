/** Types shared by the module hooks: the result a hook returns to the core, an
    optional value, and the prefix test the hooks use on strings. */
module ModApi {

  /** ModResult: what an event handler answers. PassThru lets the core (and other
      modules) decide; Allow and Deny override. */
  datatype ModResult = Allow | PassThru | Deny {

    /** ModResult::check(def): a PassThru answer yields the default `def`, any other
        answer yields whether it is Allow. */
    function Check(def: bool): (ok: bool)
      ensures PassThru? ==> ok == def
      ensures !PassThru? ==> (ok <==> Allow?)
    {
      if PassThru? then def else Allow?
    }
  }

  datatype Option<+T> = None | Some(value: T)

  /** True when `s` begins with `prefix` (std::string::compare(0, n, prefix, n) == 0,
      and strncmp(s, prefix, n) == 0 for a prefix of length n without NUL). */
  predicate StartsWith(s: string, prefix: string)
  {
    |prefix| <= |s| && s[..|prefix|] == prefix
  }
}
