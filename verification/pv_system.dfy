/**
  The PV system of one request: where it stands, its modules (each with its skyline), and
  the AC rating of its inverter.  Only the first inverter of the request is used.
*/
module PvSystem {
  import opened Outcomes
  import opened Records
  import Horizon

  datatype UserPvSystem = UserPvSystem(
    gpsCoordinates: GpsCoordinates,
    pvModules: seq<Horizon.PvModule>,
    inverterAcRating: real)

  /** One module per panel, in the order of the panels. */
  function GetPvModules(panels: seq<SolarPanel>): (modules: seq<Horizon.PvModule>)
    ensures |modules| == |panels|
    ensures forall i :: 0 <= i < |panels| ==> modules[i] == Horizon.GetPvModule(panels[i])
  {
    seq(|panels|, i requires 0 <= i < |panels| => Horizon.GetPvModule(panels[i]))
  }

  /** `getUserPvSystem`.  A request without inverters fails: the source reads the first
      element of an empty array. */
  function GetUserPvSystem(userData: UserData): (r: Result<UserPvSystem>)
    ensures r.Err? <==> |userData.userInverters| == 0
    ensures r.Err? ==> r.failure == NoInverter
    ensures r.Ok? ==> && r.value.gpsCoordinates == userData.userGpsCoords
                      && r.value.inverterAcRating == userData.userInverters[0].inverterWatts
                      && r.value.pvModules == GetPvModules(userData.userPanels)
  {
    var modules := GetPvModules(userData.userPanels);
    if |userData.userInverters| == 0 then Err(NoInverter)
    else Ok(UserPvSystem(userData.userGpsCoords, modules, userData.userInverters[0].inverterWatts))
  }

  /** Inverters after the first one do not change the system. */
  lemma {:induction false} OnlyFirstInverterCounts(userData: UserData, first: Inverter, rest1: seq<Inverter>, rest2: seq<Inverter>)
    ensures GetUserPvSystem(userData.(userInverters := [first] + rest1))
         == GetUserPvSystem(userData.(userInverters := [first] + rest2))
  {
  }

  /** `removeShadowing` of the system: every module gets the obstacle-free skyline. */
  function RemoveShadowing(system: UserPvSystem): (r: UserPvSystem)
    ensures r.gpsCoordinates == system.gpsCoordinates
    ensures r.inverterAcRating == system.inverterAcRating
    ensures |r.pvModules| == |system.pvModules|
    ensures forall i :: 0 <= i < |system.pvModules| ==> r.pvModules[i] == Horizon.RemoveShadowing(system.pvModules[i])
  {
    system.(pvModules := seq(|system.pvModules|, i requires 0 <= i < |system.pvModules| =>
      Horizon.RemoveShadowing(system.pvModules[i])))
  }

  /** Removing the obstacles a second time changes nothing. */
  lemma {:induction false} RemoveShadowingIdempotent(system: UserPvSystem)
    ensures RemoveShadowing(RemoveShadowing(system)) == RemoveShadowing(system)
  {
    var once := RemoveShadowing(system);
    assert RemoveShadowing(once).pvModules == once.pvModules;
  }

  /** After the obstacles are removed every module has a skyline entry for every bucket,
      and the modules keep their ratings and orientations. */
  lemma {:induction false} RemoveShadowingComplete(system: UserPvSystem, i: int, k: int)
    requires 0 <= i < |system.pvModules| && Horizon.IsBucket(k)
    ensures k in RemoveShadowing(system).pvModules[i].skyline
    ensures RemoveShadowing(system).pvModules[i].dcRating == system.pvModules[i].dcRating
    ensures RemoveShadowing(system).pvModules[i].azimuth == system.pvModules[i].azimuth
    ensures RemoveShadowing(system).pvModules[i].tilt == system.pvModules[i].tilt
  {
  }
}
