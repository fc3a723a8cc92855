/** `Vue.use` of src/core/global-api/use.js: install a plugin at most once per
    constructor.  The plugin's own install code is not run here; each call
    it would make is recorded in the constructor's log. */
module PluginUse {
  import opened Common

  /** A plugin object or function as one `use` call finds it: `id` is the
      object's identity, which `indexOf` compares; the other fields are what
      the call sees of it and may differ between calls with the same object.
      `hasInstall`: `typeof plugin.install === 'function'`;
      `callable`: `typeof plugin === 'function'`. */
  datatype Plugin = Plugin(id: nat, hasInstall: bool, callable: bool)

  /** An argument handed to an install function: the constructor itself,
      then the extra arguments of the `use` call. */
  datatype Arg = TheConstructor | Extra(v: Value)

  /** `plugin.install.apply(plugin, args)` or `plugin.apply(null, args)`. */
  datatype Install = Install(plugin: Plugin, viaInstallMethod: bool, args: seq<Arg>)

  function InstallArgs(extra: seq<Value>): (r: seq<Arg>)
    ensures |r| == |extra| + 1 && r[0] == TheConstructor
    ensures forall i | 0 <= i < |extra| :: r[i + 1] == Extra(extra[i])
  {
    [TheConstructor] + seq(|extra|, i requires 0 <= i < |extra| => Extra(extra[i]))
  }

  /** A constructor (`Vue` or a subclass) as `use` sees it. */
  class Constructor {
    /** `this._installedPlugins`, created on the first `use`: the identities
        of the installed plugins, in installation order. */
    var installedPlugins: Option<seq<nat>>
    /** The install calls made so far, oldest first. */
    var installs: seq<Install>

    predicate Valid()
      reads this
    {
      installedPlugins.Some? ==> Distinct(installedPlugins.value)
    }

    function Installed(): seq<nat>
      reads this
    {
      installedPlugins.GetOr([])
    }

    constructor ()
      ensures Valid() && installedPlugins.None? && installs == []
    {
      installedPlugins := None;
      installs := [];
    }

    /** `Vue.use(plugin, ...extra)`; returns the constructor. */
    method Use(plugin: Plugin, extra: seq<Value>) returns (r: Constructor)
      requires Valid()
      modifies this
      ensures r == this && Valid()
      ensures installedPlugins.Some?
      ensures plugin.id in old(Installed()) ==> Installed() == old(Installed()) && installs == old(installs)
      ensures plugin.id !in old(Installed()) ==>
        Installed() == old(Installed()) + [plugin.id] &&
        installs == old(installs) +
          (if plugin.hasInstall then [Install(plugin, true, InstallArgs(extra))]
           else if plugin.callable then [Install(plugin, false, InstallArgs(extra))]
           else [])
      ensures Count(Installed(), plugin.id) == 1
    {
      if installedPlugins.None? {
        installedPlugins := Some([]);
      }
      var installed := installedPlugins.value;
      if IndexOf(installed, plugin.id) > -1 {
        DistinctCount(installed, plugin.id);
        CountZero(installed, plugin.id);
        return this;
      }
      var args := InstallArgs(extra);
      if plugin.hasInstall {
        installs := installs + [Install(plugin, true, args)];
      } else if plugin.callable {
        installs := installs + [Install(plugin, false, args)];
      }
      installedPlugins := Some(installed + [plugin.id]);
      CountZero(installed, plugin.id);
      CountConcat(installed, [plugin.id], plugin.id);
      return this;
    }
  }
}
