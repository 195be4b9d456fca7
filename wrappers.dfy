/** Optional values, standing for the C# nullable references and
    `FirstOrDefault` results of the modelled code. */
module Wrappers {

  datatype Option<+T> = None | Some(value: T)

}
