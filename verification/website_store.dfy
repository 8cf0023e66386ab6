/**
 * The client's website store: the site's public information, fetched once.
 * It is not persisted.
 */
module WebsiteStore {
  import opened ClientTypes

  /** The `Website` record of the client API: nineteen text fields. */
  datatype Website = Website(
    logo: string, fullLogo: string, title: string, slogan: string, sloganEn: string,
    description: string, version: string, createdAt: string, icpFiling: string,
    publicSecurityFiling: string, bilibiliUrl: string, giteeUrl: string, githubUrl: string,
    name: string, job: string, address: string, email: string, qqImage: string,
    wechatImage: string)

  function EmptyWebsite(): Website
  {
    Website("", "", "", "", "", "", "", "", "", "", "", "", "", "", "", "", "", "", "")
  }

  class Store {
    var websiteInfo: Website
    var websiteInfoInitialized: bool

    constructor ()
      ensures websiteInfo == EmptyWebsite() && !websiteInfoInitialized
    {
      websiteInfo := EmptyWebsite();
      websiteInfoInitialized := false;
    }

    /** `initializeWebsite`: a code-0 reply fills the record and sets the flag; any other reply changes nothing. */
    method InitializeWebsite(reply: Settled<Envelope<Website>>) returns (r: Settled<()>)
      modifies this
      ensures r.Rejected? <==> reply.Rejected?
      ensures reply.Fulfilled? && reply.value.code == 0 ==>
        websiteInfo == reply.value.data && websiteInfoInitialized
      ensures !(reply.Fulfilled? && reply.value.code == 0) ==>
        websiteInfo == old(websiteInfo) && websiteInfoInitialized == old(websiteInfoInitialized)
    {
      if reply.Rejected? {
        return Rejected;
      }
      if reply.value.code == 0 {
        websiteInfo, websiteInfoInitialized := reply.value.data, true;
      }
      r := Fulfilled(());
    }

    /**
     * `initializeStore`: sends the request of `initializeWebsite` only while
     * the flag is false. The call is not awaited: the store changes only when
     * the reply arrives and `InitializeWebsite` handles it, so a second call
     * made before then sends the request again.
     */
    method InitializeStore() returns (requested: bool)
      ensures requested <==> !websiteInfoInitialized
    {
      requested := !websiteInfoInitialized;
    }
  }
}
