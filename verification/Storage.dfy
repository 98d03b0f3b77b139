/** Uploaded files on disk. */
module Storage {
  import opened Sequences
  import opened Crypto
  import opened Protocol
  import opened Handlers

  /** The directory that holds the files, by file id. */
  class Disk {
    var ready: bool
    var files: map<string, seq<Byte>>

    constructor (stored: map<string, seq<Byte>>)
      ensures files == stored
    {
      ready, files := stored != map[], stored;
    }
  }

  class FileStorage {
    const id: string
    var name: string
    var hash: string

    constructor (id: string, name: string, hash: string)
      ensures this.id == id && this.name == name && this.hash == hash
    {
      this.id, this.name, this.hash := id, name, hash;
    }

    method SetHash(hash: string)
      modifies this`hash
      ensures this.hash == hash
    {
      this.hash := hash;
    }

    method SetName(name: string)
      modifies this`name
      ensures this.name == name
    {
      this.name := name;
    }

    /** Creates the directory if need be; no file appears or disappears. */
    method CheckDiskExistence(disk: Disk) returns (found: bool)
      modifies disk`ready
      ensures disk.ready && (found <==> id in disk.files)
    {
      if !disk.ready {
        disk.ready := true;
      }
      found := id in disk.files;
    }

    /** Opening truncates; a failed write leaves some prefix of the content behind. */
    method SaveToDisk(disk: Disk, file: File, save: SaveResult) returns (ok: bool)
      modifies disk`files
      ensures disk.files == Handlers.SaveToDisk(old(disk.files), id, file.content, save)
      ensures ok <==> save.Saves?
      ensures ok ==> id in disk.files && disk.files[id] == file.content
      ensures forall other :: other != id ==>
        (other in disk.files <==> other in old(disk.files))
        && (other in disk.files ==> disk.files[other] == old(disk.files)[other])
    {
      if save.OpenFails? {
        return false;
      }
      disk.files := disk.files[id := []];
      if save.WriteFails? {
        var part := if save.written < |file.content| then file.content[..save.written] else file.content;
        disk.files := disk.files[id := part];
        return false;
      }
      disk.files := disk.files[id := file.content];
      return true;
    }

    method LoadIntoProto(disk: Disk, openOk: bool) returns (file: Option<File>)
      ensures file == if id in disk.files && openOk then Some(File(name, disk.files[id])) else None
    {
      if id !in disk.files || !openOk {
        return None;
      }
      return Some(File(name, disk.files[id]));
    }
  }
}
