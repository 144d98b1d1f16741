/** The option records the command line hands to the resolver, finder and deleter. */
module Options {

  /** `options.Options`: the flags of the current command line. `mode` selects force removal over trashing. */
  datatype Options = Options(verbosity: bool, mode: bool, peek: bool, logical: bool, size: bool)

  /** `ResolverOptions` of the older `rmapp` package: verbosity, mode and peek only. */
  datatype ResolverOptions = ResolverOptions(verbosity: bool, mode: bool, peek: bool)
}
