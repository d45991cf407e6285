/**
 * The mapping from a staff-directory login response to the user fields the
 * backend stores. The HTTP call itself is not modelled: its result is an input.
 */
module NpuApi {
  import opened Wrappers
  import opened Ids

  /**
   * A directory response: the truth value of its "success" entry, and its
   * "personnel_info" object when present (each key mapped to its string value).
   */
  datatype NpuResponse = NpuResponse(success: bool, personnelInfo: Option<map<string, string>>)

  /** The dictionary extract_user_data builds, one field per key. */
  datatype UserData = UserData(
    citizenId: string,
    npuStaffId: string,
    firstName: string,
    lastName: string,
    departmentName: string,
    positionTitle: string,
    employmentStatus: string,
    lastNpuSync: Instant)

  /** The personnel_info keys read, in the order of the output fields. */
  const CitizenIdKey := "staffcitizenid"
  const StaffIdKey := "staffid"
  const FirstNameKey := "staffname"
  const LastNameKey := "staffsurname"
  const DepartmentKey := "departmentname"
  const PositionKey := "posnameth"
  const EmploymentKey := "stfstaname"

  /** info.get(key, ''). */
  function Get(info: map<string, string>, key: string): (r: string)
    ensures key in info ==> r == info[key]
    ensures key !in info ==> r == ""
  {
    if key in info then info[key] else ""
  }

  /**
   * extract_user_data: None for a missing or unsuccessful response; otherwise
   * each field from its fixed key of personnel_info (an absent object counts
   * as empty), and the sync time from the clock.
   */
  function ExtractUserData(response: Option<NpuResponse>, now: Instant): (r: Option<UserData>)
    ensures r.None? <==> response.None? || !response.value.success
    ensures r.Some? ==> r.value.lastNpuSync == now
    ensures r.Some? && response.value.personnelInfo.Some? ==>
              var info := response.value.personnelInfo.value;
              && r.value.citizenId == Get(info, CitizenIdKey)
              && r.value.npuStaffId == Get(info, StaffIdKey)
              && r.value.firstName == Get(info, FirstNameKey)
              && r.value.lastName == Get(info, LastNameKey)
              && r.value.departmentName == Get(info, DepartmentKey)
              && r.value.positionTitle == Get(info, PositionKey)
              && r.value.employmentStatus == Get(info, EmploymentKey)
  {
    if response.None? || !response.value.success then None
    else
      var info := if response.value.personnelInfo.Some? then response.value.personnelInfo.value else map[];
      Some(UserData(Get(info, CitizenIdKey), Get(info, StaffIdKey), Get(info, FirstNameKey), Get(info, LastNameKey),
                    Get(info, DepartmentKey), Get(info, PositionKey), Get(info, EmploymentKey), now))
  }

  /** A successful response without personnel_info yields '' for every string field. */
  lemma MissingInfoGivesEmptyFields(now: Instant)
    ensures ExtractUserData(Some(NpuResponse(true, None)), now)
            == Some(UserData("", "", "", "", "", "", "", now))
  {
  }

  /** Only the seven keys matter: two responses that agree on them give the same user data. */
  lemma OnlyTheSevenKeysMatter(info: map<string, string>, info': map<string, string>, now: Instant)
    requires forall k :: k in {CitizenIdKey, StaffIdKey, FirstNameKey, LastNameKey, DepartmentKey, PositionKey, EmploymentKey}
                         ==> Get(info, k) == Get(info', k)
    ensures ExtractUserData(Some(NpuResponse(true, Some(info))), now) == ExtractUserData(Some(NpuResponse(true, Some(info'))), now)
  {
    assert Get(info, CitizenIdKey) == Get(info', CitizenIdKey);
    assert Get(info, StaffIdKey) == Get(info', StaffIdKey);
    assert Get(info, FirstNameKey) == Get(info', FirstNameKey);
    assert Get(info, LastNameKey) == Get(info', LastNameKey);
    assert Get(info, DepartmentKey) == Get(info', DepartmentKey);
    assert Get(info, PositionKey) == Get(info', PositionKey);
    assert Get(info, EmploymentKey) == Get(info', EmploymentKey);
  }
}
