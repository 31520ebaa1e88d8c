// The calls themselves: nvs_set_blob, nvs_erase_key, nvs_commit and nvs_flash_erase of libjade/nvs_flash.c with
// the handler kept by libjade/libjade.c, each one step of the machine in SettingsRuns.
module SettingsDevice {
  import opened Options
  import opened SettingsFields
  import opened SettingsStore
  import opened SettingsBlob
  import opened SettingsSave
  import R = SettingsRuns

  // The host's store behind on_settings_changed() (libjade/daemon.c); `answers` says which requests it carries
  // out, counted from the start.
  class HostStore {
    var slot: Option<Bytes>
    var asked: nat
    const answers: nat -> bool

    constructor (answers: nat -> bool)
      ensures slot == None && asked == 0 && this.answers == answers
    {
      this.answers := answers;
      slot := None;
      asked := 0;
    }

    method OnChanged(data: Bytes) returns (ok: bool)
      modifies this
      ensures ok == answers(old(asked)) && asked == old(asked) + 1 && slot == R.Host(old(slot), data, ok)
    {
      ok := answers(asked);
      asked := asked + 1;
      if ok {
        slot := if data == [] then None else Some(data);
      }
    }
  }

  class Firmware {
    const nvs: Nvs
    const host: HostStore
    const digest: Bytes -> Digest
    var handler: HostStore?

    ghost predicate Valid()
      reads this, nvs
    {
      nvs.Valid() && (handler == null || handler == host)
    }

    ghost function Abs(): R.Device
      reads this, nvs, host
    {
      R.Device(nvs.maps, handler != null, host.slot)
    }

    constructor (digest: Bytes -> Digest, serves: nat -> bool, answers: nat -> bool)
      ensures Valid() && Abs() == R.NEW_DEVICE && fresh(nvs) && fresh(host)
      ensures nvs.serves == serves && host.answers == answers
    {
      this.digest := digest;
      nvs := new Nvs(serves);
      host := new HostStore(answers);
      handler := null;
    }

    method SetHandler(on: bool)
      requires Valid()
      modifies this
      ensures Valid() && Abs() == R.Step(old(Abs()), R.SetHandler(on), digest).0
    {
      handler := if on then host else null;
    }

    method SetBlob(ns: nat, key: Bytes, value: Bytes) returns (ok: bool)
      requires Valid() && ns < NAMESPACES
      modifies nvs
      ensures Valid() && ok == nvs.serves(old(nvs.calls))
      ensures (Abs(), ok) == R.Step(old(Abs()), R.Write(ns, key, value, ok), digest)
    {
      ok := nvs.MapReplace(ns, key, value);
    }

    method EraseKey(ns: nat, key: Bytes) returns (ok: bool)
      requires Valid() && ns < NAMESPACES
      modifies nvs
      ensures Valid() && ok == nvs.serves(old(nvs.calls))
      ensures (Abs(), ok) == R.Step(old(Abs()), R.Erase(ns, key, ok), digest)
    {
      ok := nvs.MapRemove(ns, key);
    }

    // libjade_settings_changed()
    method SettingsChanged() returns (ok: bool)
      requires Valid()
      modifies host
      ensures (Abs(), ok) == R.Step(old(Abs()), R.Commit(0, host.answers(old(host.asked))), digest)
    {
      hide Writable, Blob;
      ok := true;
      if handler != null {
        var data := Serialize(nvs, digest);
        if data.Some? {
          ok := handler.OnChanged(data.value);
        } else {
          ok := false;
        }
      }
    }

    method Commit(ns: nat) returns (ok: bool)
      requires Valid()
      modifies host
      ensures Valid() && (Abs(), ok) == R.Step(old(Abs()), R.Commit(ns, host.answers(old(host.asked))), digest)
    {
      for i := 0 to NAMESPACES
        invariant i <= ns
      {
        if ns == i {
          ok := SettingsChanged();
          return;
        }
      }
      ok := false;
    }

    // A factory reset: clear the maps, then ask the host to remove every copy.
    method FlashErase() returns (ok: bool)
      requires Valid()
      modifies nvs, host
      ensures Valid() && (Abs(), ok) == R.Step(old(Abs()), R.Reset(host.answers(old(host.asked))), digest)
    {
      for i := 0 to NAMESPACES
        invariant Valid() && host.slot == old(host.slot) && host.asked == old(host.asked)
        invariant forall k :: 0 <= k < i ==> nvs.maps[k] == []
      {
        nvs.maps := nvs.maps[i := []];
      }
      assert nvs.maps == EMPTY;
      ok := true;
      if handler != null {
        ok := handler.OnChanged([]);
      }
    }

    // Power on again: empty maps, then whatever the host still has, as far as the map library has room.
    method Restart()
      requires Valid()
      modifies this, nvs
      ensures Valid()
      ensures var room := Served(nvs.serves, old(nvs.calls), |R.Entries(host.slot, digest)|);
              Abs() == R.Step(old(Abs()), R.Restart(room), digest).0
    {
      hide Loadable, Apply;
      handler := null;
      nvs.maps := EMPTY;
      if host.slot.Some? {
        var loaded := Deserialize(nvs, host.slot.value, digest);
      }
      NothingBoots();
    }

    lemma NothingBoots()
      ensures Apply(EMPTY, []) == EMPTY
    {
    }
  }
}
