/**
 * `InstallRequirements.get_pypi_package_name`: from an importable module
 * name to the name of the distribution that provides it.
 */
module Resolver {
  import opened Wrappers

  /** The distributions installed in the environment, as the key that
      `pkg_resources.get_distribution(query).key` gives for each query it
      answers; a query absent from the map raises `DistributionNotFound`.
      One fixed map stands for the state after the requirements install;
      queries that are not valid requirement strings, which raise another
      exception in the source, are not told apart. */
  type Installed = map<string, string>

  /** The one module whose distribution name is hard-wired. */
  const OverriddenModule: string := "PIL"
  const OverrideDistribution: string := "Pillow"

  /** The distribution to install for `moduleName`, or `None` when the
      module is neither the override nor an installed distribution. */
  function PackageName(moduleName: string, installed: Installed): (r: Option<string>)
    ensures moduleName == OverriddenModule ==> r == Some(OverrideDistribution)
    ensures moduleName != OverriddenModule ==>
              (r.Some? <==> moduleName in installed)
    ensures r.Some? && moduleName != OverriddenModule ==> r.value == installed[moduleName]
  {
    if moduleName == OverriddenModule then Some(OverrideDistribution)
    else if moduleName in installed then Some(installed[moduleName])
    else None
  }

  /** The answer for a module depends only on what is installed under that
      module's own name (and not at all for the override). */
  lemma ResolutionIsLocal(moduleName: string, i1: Installed, i2: Installed)
    requires moduleName == OverriddenModule
             || (moduleName in i1 <==> moduleName in i2)
    requires moduleName != OverriddenModule && moduleName in i1 ==> i1[moduleName] == i2[moduleName]
    ensures PackageName(moduleName, i1) == PackageName(moduleName, i2)
  {
  }
}
