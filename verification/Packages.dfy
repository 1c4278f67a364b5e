/** release/pkg/package.go: packages are objects, told apart by identity, whose dependencies
    point to other packages of the same release. */
module Packages {
  import opened Graphs

  class Package {
    const name: string
    var fingerprint: string
    var sha1: string
    var stemcell: string
    var dependencies: seq<Package>

    constructor (name: string)
      ensures this.name == name
      ensures fingerprint == "" && sha1 == "" && stemcell == "" && dependencies == []
    {
      this.name := name;
      fingerprint, sha1, stemcell, dependencies := "", "", "", [];
    }
  }

  /** Where what was compiled for a package can be found. */
  datatype CompiledPackageRecord = CompiledPackageRecord(blobID: string, blobSHA1: string)

  /** A package in one version, and the blob that has it. */
  datatype PackageRef = PackageRef(name: string, version: string, record: CompiledPackageRecord)

  /** The edges that leave these packages. */
  ghost function EdgesOf(packages: seq<Package>): Graph<Package>
    reads packages
  {
    map p | p in packages :: p.dependencies
  }
}
