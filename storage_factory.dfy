/** The legacy registry of StorageFactory.php: static maps of stores and of
    property definitions, here the fields of one explicit factory object. */
module Registry {
  import opened Base

  /** A data store object. Its class is not part of this model beyond its
      code, its project and the unique-value index that DataRecord.setValue
      consults: (property code, value) to the id of the record holding it. */
  class DataStore {
    const code: string
    const project: string
    var uniqueIndex: map<(string, Value), string>

    constructor (code: string, project: string)
      ensures this.code == code && this.project == project
      ensures uniqueIndex == map[]
    {
      this.code := code;
      this.project := project;
      uniqueIndex := map[];
    }

    /** `getUniqueDataRecord`: the holder of `value`, or null. */
    function UniqueHolder(propertyCode: string, value: Value): (r: Option<string>)
      reads this
      ensures r.Some? <==> (propertyCode, value) in uniqueIndex
      ensures r.Some? ==> uniqueIndex[(propertyCode, value)] == r.value
    {
      if (propertyCode, value) in uniqueIndex then Some(uniqueIndex[(propertyCode, value)]) else None
    }

    /** `setUniqueDataRecord`: `id` now holds `value`. */
    method ClaimUnique(propertyCode: string, value: Value, id: string)
      modifies this
      ensures uniqueIndex == old(uniqueIndex)[(propertyCode, value) := id]
    {
      uniqueIndex := uniqueIndex[(propertyCode, value) := id];
    }
  }

  /** A user store object: only its identity is modelled. */
  class UserStore {
    const code: string
    const project: string

    constructor (code: string, project: string)
      ensures this.code == code && this.project == project
    {
      this.code := code;
      this.project := project;
    }
  }

  /** `self::$stores['data']`, `self::$stores['user']`, `self::$props['data']`
      and `self::$props['user']` as four maps. */
  class StorageFactory {
    var dataStores: map<string, DataStore>
    var userStores: map<string, UserStore>
    var dataProps: map<string, PropDef>
    var userProps: map<string, PropDef>

    constructor ()
      ensures dataStores == map[] && userStores == map[]
      ensures dataProps == map[] && userProps == map[]
    {
      dataStores, userStores := map[], map[];
      dataProps, userProps := map[], map[];
    }

    /** Registers a data store unless the code is taken; a repeated create
        keeps the original store. */
    method CreateDataStore(code: string, project: string)
      modifies this
      ensures code in old(dataStores) ==> dataStores == old(dataStores)
      ensures code !in old(dataStores) ==>
        && code in dataStores && fresh(dataStores[code])
        && dataStores[code].code == code && dataStores[code].project == project
        && dataStores == old(dataStores)[code := dataStores[code]]
      ensures userStores == old(userStores)
      ensures dataProps == old(dataProps) && userProps == old(userProps)
    {
      if code !in dataStores {
        var store := new DataStore(code, project);
        dataStores := dataStores[code := store];
      }
    }

    /** Registers a user store unless the code is taken. */
    method CreateUserStore(code: string, project: string)
      modifies this
      ensures code in old(userStores) ==> userStores == old(userStores)
      ensures code !in old(userStores) ==>
        && code in userStores && fresh(userStores[code])
        && userStores[code].code == code && userStores[code].project == project
        && userStores == old(userStores)[code := userStores[code]]
      ensures dataStores == old(dataStores)
      ensures dataProps == old(dataProps) && userProps == old(userProps)
    {
      if code !in userStores {
        var store := new UserStore(code, project);
        userStores := userStores[code := store];
      }
    }

    /** Declares a data record property; the last declaration wins. */
    method CreateDataRecordProperty(code: string, propType: string, default: Value := Null)
      modifies this
      ensures dataProps == old(dataProps)[code := PropDef(propType, default)]
      ensures userProps == old(userProps)
      ensures dataStores == old(dataStores) && userStores == old(userStores)
    {
      dataProps := dataProps[code := PropDef(propType, default)];
    }

    /** Declares a user property; the last declaration wins. */
    method CreateUserProperty(code: string, propType: string, default: Value := Null)
      modifies this
      ensures userProps == old(userProps)[code := PropDef(propType, default)]
      ensures dataProps == old(dataProps)
      ensures dataStores == old(dataStores) && userStores == old(userStores)
    {
      userProps := userProps[code := PropDef(propType, default)];
    }

    /** The declared data record property, or null. */
    function GetDataRecordProperty(code: string): (r: Option<PropDef>)
      reads this
      ensures r.Some? <==> code in dataProps
      ensures r.Some? ==> r.value == dataProps[code]
    {
      if code in dataProps then Some(dataProps[code]) else None
    }

    /** The declared user property, or null. */
    function GetUserProperty(code: string): (r: Option<PropDef>)
      reads this
      ensures r.Some? <==> code in userProps
      ensures r.Some? ==> r.value == userProps[code]
    {
      if code in userProps then Some(userProps[code]) else None
    }

    /** The registered data store; throws for an unregistered code. */
    method GetDataStore(code: string) returns (r: Result<DataStore>)
      ensures r.Err? <==> code !in dataStores
      ensures r.Err? ==> r.error == StoreNotFound
      ensures r.Ok? ==> r.value == dataStores[code]
    {
      if code !in dataStores {
        return Err(StoreNotFound);
      }
      return Ok(dataStores[code]);
    }

    /** The registered user store; throws for an unregistered code. */
    method GetUserStore(code: string) returns (r: Result<UserStore>)
      ensures r.Err? <==> code !in userStores
      ensures r.Err? ==> r.error == StoreNotFound
      ensures r.Ok? ==> r.value == userStores[code]
    {
      if code !in userStores {
        return Err(StoreNotFound);
      }
      return Ok(userStores[code]);
    }
  }
}
