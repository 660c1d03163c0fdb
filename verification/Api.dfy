/** The API values both controllers speak about. */
module Api {
  import opened Prelude

  /** The app states the controllers compare with; other texts can be read back but are never written. */
  datatype AppStatus = Running | Installing | OtherStatus(text: string)

  /** PodSetStatusInfo, without the pointers behind which every entry shares one loop variable. */
  datatype PodInfo = PodInfo(name: string, version: string, desired: int32, available: int32, unavailable: int32)

  /** AdvDeploymentAggrStatus. */
  datatype AggrStatus = AggrStatus(
    owners: seq<string>,
    status: AppStatus,
    version: string,
    desired: int32,
    available: int32,
    unavailable: int32,
    podSets: seq<PodInfo>)
}
